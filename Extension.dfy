/**
 * The extension's registry and orchestration: a map from document URI to its
 * state, the shared diagnostic collection, the handling of document updates, and
 * the run that a fired debounce timer starts.
 *
 * A run is sequential here: `processDocument` completes before the next step, and
 * its `onDiagnostics` callback (which stores and publishes the diagnostics) is
 * applied to the arguments the run reports it was called with.
 */
module Extension {
  import opened JsText
  import opened DiagnosticParser
  import opened Processing
  import opened Preview
  import opened Documents
  import opened DiagnosticsUtils

  const CompileFailureTitle: string := "Failed to compile RFC XML"
  const ProcessingErrorTitle: string := "Processing Error"

  class ExtensionState {
    var documents: map<string, DocumentState>
    var diagnosticCollection: DiagnosticCollection?

    /** Every state is filed under its own URI, was made with the scheduling callback, and is consistent. */
    ghost predicate Valid()
      reads this, documents.Values
    {
      forall u :: u in documents ==> documents[u].FiledUnder(u)
    }

    /** The panels of the tracked documents. */
    ghost function Panels(): set<Panel>
      reads this, documents.Values
    {
      set u | u in documents && documents[u].previewPanel != null :: documents[u].previewPanel
    }

    constructor()
      ensures Valid()
      ensures documents == map[] && diagnosticCollection == null
    {
      documents := map[];
      diagnosticCollection := null;
    }

    /** `initialize(context)`: creates the diagnostic collection. */
    method Initialize()
      requires Valid()
      modifies this
      ensures Valid()
      ensures documents == old(documents)
      ensures diagnosticCollection != null && fresh(diagnosticCollection) && diagnosticCollection.entries == map[]
      ensures diagnosticCollection != null && !diagnosticCollection.disposed
    {
      diagnosticCollection := new DiagnosticCollection();
    }

    /**
     * `getOrCreateDocumentState(document)`: an existing state is returned as it is;
     * otherwise a new state is filed, built from the document's current content.
     * No existing state is touched.
     */
    method GetOrCreateDocumentState(uri: string, fileName: string, content: string, parse: ParseAttempt) returns (state: DocumentState)
      requires Valid()
      modifies this
      ensures Valid()
      ensures diagnosticCollection == old(diagnosticCollection)
      ensures uri in documents && state == documents[uri]
      ensures uri in old(documents) ==> documents == old(documents)
      ensures uri !in old(documents) ==> fresh(state) && documents == old(documents)[uri := state]
      ensures uri !in old(documents) ==>
        && state.lastContent == Some(content) && state.cachedHtml == None && !state.isProcessing
        && state.fileName == Basename(fileName) && state.lastDiagnostics == []
        && XmlValidation(state.isValidXml, state.isRfcXml, state.parsedDoc) == ParseAndValidateXml(parse)
        && state.previewPanel == null
        && (state.processingTimer.Some? <==> state.ShouldProcess())
    {
      if uri !in documents {
        var created := new DocumentState(uri, fileName, content, parse, true);
        ghost var before := documents;
        documents := documents[uri := created];
        forall u | u in documents
          ensures documents[u].FiledUnder(u)
        {
          if u != uri {
            assert documents[u] == before[u];
          }
        }
      }
      state := documents[uri];
    }

    /** What removing `uri` may change: its state and that state's panel. */
    ghost function Tracked(uri: string): set<object?>
      reads this, documents.Values
    {
      if uri in documents then {documents[uri], documents[uri].previewPanel} else {}
    }

    /**
     * `removeDocumentState(uri)`: a tracked state is disposed and dropped and its
     * diagnostics are cleared; an untracked URI changes nothing. Other states are
     * not touched.
     */
    method RemoveDocumentState(uri: string)
      requires Valid()
      modifies this, Tracked(uri), diagnosticCollection
      ensures Valid()
      ensures documents == old(documents) - {uri}
      ensures diagnosticCollection == old(diagnosticCollection)
      ensures uri in old(documents) ==> old(documents)[uri].IsReleased()
      ensures uri in old(documents) && old(documents[uri].previewPanel) != null ==>
        old(documents[uri].previewPanel).disposed
      ensures diagnosticCollection != null ==>
        diagnosticCollection.entries == if uri in old(documents) then old(diagnosticCollection.entries) - {uri} else old(diagnosticCollection.entries)
      ensures diagnosticCollection != null ==> diagnosticCollection.disposed == old(diagnosticCollection.disposed)
    {
      if uri !in documents {
        return;
      }
      var state := documents[uri];
      state.Dispose();
      ghost var before := documents;
      documents := documents - {uri};
      forall u | u in documents
        ensures documents[u].FiledUnder(u)
      {
        assert documents[u] == before[u] && before[u].uri == u;
      }
      if diagnosticCollection != null {
        diagnosticCollection.Delete(uri);
      }
    }

    /** The state `handleDocumentUpdate` may change: the one filed under `uri`, if any. */
    ghost function StateOf(uri: string): set<DocumentState>
      reads this
    {
      if uri in documents then {documents[uri]} else {}
    }

    /**
     * `handleDocumentUpdate(document)`. A `.git` file name changes nothing.
     * Otherwise the state is fetched or created and updated with the content (see
     * `TrackUpdate`), and its last diagnostics are published exactly when it does
     * not need processing. Other states are not touched.
     */
    method HandleDocumentUpdate(uri: string, fileName: string, content: string, parse: ParseAttempt) returns (r: Option<DocumentState>)
      requires Valid()
      modifies this, StateOf(uri), diagnosticCollection
      ensures Valid()
      ensures diagnosticCollection == old(diagnosticCollection)
      ensures diagnosticCollection != null ==> diagnosticCollection.disposed == old(diagnosticCollection.disposed)
      ensures EndsWith(fileName, ".git") ==>
        && r == None && documents == old(documents)
        && (uri in old(documents) ==> unchanged(old(documents[uri])))
        && (diagnosticCollection != null ==> diagnosticCollection.entries == old(diagnosticCollection.entries))
      ensures !EndsWith(fileName, ".git") ==>
        && r.Some? && uri in documents && r.value == documents[uri]
        && documents.Keys == old(documents).Keys + {uri}
        && (forall u :: u in old(documents) && u != uri ==> documents[u] == old(documents[u]))
        && r.value.lastContent == Some(content) && r.value.hasCallback
        && (diagnosticCollection != null ==>
              diagnosticCollection.entries == if r.value.NeedsProcessing() then old(diagnosticCollection.entries)
                else Published(old(diagnosticCollection.entries), uri, Some(r.value.lastDiagnostics)))
      ensures !EndsWith(fileName, ".git") && uri !in old(documents) ==>
        && fresh(r.value) && r.value.processingTimer == None
        && XmlValidation(r.value.isValidXml, r.value.isRfcXml, r.value.parsedDoc) == ParseAndValidateXml(parse)
        && r.value.cachedHtml == None && !r.value.isProcessing && r.value.lastDiagnostics == []
        && r.value.fileName == Basename(fileName) && r.value.previewPanel == null
      ensures !EndsWith(fileName, ".git") && uri in old(documents) ==>
        && r.value == old(documents[uri])
        && (old(documents[uri].lastContent) != Some(content) ==>
              XmlValidation(r.value.isValidXml, r.value.isRfcXml, r.value.parsedDoc) == ParseAndValidateXml(parse))
        && (old(documents[uri].lastContent) == Some(content) ==>
              r.value.isValidXml == old(documents[uri].isValidXml) && r.value.isRfcXml == old(documents[uri].isRfcXml)
              && r.value.parsedDoc == old(documents[uri].parsedDoc))
        && r.value.cachedHtml == (if old(documents[uri].lastContent) == Some(content) then old(documents[uri].cachedHtml) else None)
        && r.value.isProcessing == old(documents[uri].isProcessing)
        && r.value.lastProcessingError == old(documents[uri].lastProcessingError)
        && r.value.lastDiagnostics == old(documents[uri].lastDiagnostics)
        && r.value.previewPanel == old(documents[uri].previewPanel)
        && (r.value.processingTimer.Some? <==> old(documents[uri].lastContent) != Some(content) && r.value.NeedsProcessing())
    {
      if EndsWith(fileName, ".git") {
        return None;
      }
      var state := TrackUpdate(uri, fileName, content, parse);
      if !state.NeedsProcessing() {
        PublishLastDiagnostics(uri, state);
      }
      r := Some(state);
    }

    /**
     * The first two steps of `handleDocumentUpdate`: `getOrCreateDocumentState`
     * and `updateFromDocument`. A document seen for the first time ends without a
     * pending timer: the timer its constructor set is cleared by the second update
     * with the same content. A tracked document gets the effects of
     * `updateFromDocument`, with a timer pending exactly when the content is new
     * and processing is needed.
     */
    method TrackUpdate(uri: string, fileName: string, content: string, parse: ParseAttempt) returns (state: DocumentState)
      requires Valid()
      modifies this, StateOf(uri)
      ensures Valid()
      ensures diagnosticCollection == old(diagnosticCollection)
      ensures uri in documents && state == documents[uri]
      ensures documents.Keys == old(documents).Keys + {uri}
      ensures forall u :: u in old(documents) && u != uri ==> documents[u] == old(documents[u])
      ensures state.lastContent == Some(content) && state.hasCallback
      ensures uri !in old(documents) ==>
        && fresh(state) && state.processingTimer == None
        && XmlValidation(state.isValidXml, state.isRfcXml, state.parsedDoc) == ParseAndValidateXml(parse)
        && state.cachedHtml == None && !state.isProcessing && state.lastDiagnostics == []
        && state.fileName == Basename(fileName) && state.previewPanel == null
      ensures uri in old(documents) ==>
        && state == old(documents[uri])
        && (old(documents[uri].lastContent) != Some(content) ==>
              XmlValidation(state.isValidXml, state.isRfcXml, state.parsedDoc) == ParseAndValidateXml(parse))
        && (old(documents[uri].lastContent) == Some(content) ==>
              state.isValidXml == old(documents[uri].isValidXml) && state.isRfcXml == old(documents[uri].isRfcXml)
              && state.parsedDoc == old(documents[uri].parsedDoc))
        && state.cachedHtml == (if old(documents[uri].lastContent) == Some(content) then old(documents[uri].cachedHtml) else None)
        && state.isProcessing == old(documents[uri].isProcessing)
        && state.lastProcessingError == old(documents[uri].lastProcessingError)
        && state.lastDiagnostics == old(documents[uri].lastDiagnostics)
        && state.previewPanel == old(documents[uri].previewPanel)
        && (state.processingTimer.Some? <==> old(documents[uri].lastContent) != Some(content) && state.NeedsProcessing())
    {
      state := GetOrCreateDocumentState(uri, fileName, content, parse);
      state.UpdateFromDocument(content, parse);
      OthersKeepValid(state);
    }

    /** `_updateDiagnostics(document, state)`: publishes the state's last diagnostics under the URI. */
    method PublishLastDiagnostics(uri: string, state: DocumentState)
      modifies diagnosticCollection
      ensures diagnosticCollection != null ==>
        diagnosticCollection.entries == Published(old(diagnosticCollection.entries), uri, Some(state.lastDiagnostics))
      ensures diagnosticCollection != null ==> diagnosticCollection.disposed == old(diagnosticCollection.disposed)
    {
      UpdateDiagnostics(diagnosticCollection, uri, Some(state.lastDiagnostics));
    }

    /** After one filed state changed and stayed consistent, the registry is consistent again. */
    lemma OthersKeepValid(state: DocumentState)
      requires state.uri in documents && documents[state.uri] == state && state.Valid()
      requires state.hasCallback
      requires forall u :: u in documents && u != state.uri ==> documents[u].FiledUnder(u)
      ensures Valid()
    {
    }

    /**
     * `_scheduleProcessing(document, state)` with the document's text at the time
     * of the run. It always ends with no run in flight. A returned result stores
     * its diagnostics and publishes them, caches non-empty HTML, and shows either
     * that HTML or the compile-failure page; a thrown error is recorded, keeps the
     * previous diagnostics and cache, and shows the processing-error page with them.
     */
    method ScheduleProcessing(state: DocumentState, content: string, fs: FileSystem, io: ProcessIo)
      requires state.Valid()
      modifies state, state.previewPanel, diagnosticCollection, fs
      ensures state.Valid() && !state.isProcessing
      ensures state.lastContent == old(state.lastContent) && state.processingTimer == old(state.processingTimer)
      ensures state.previewPanel == old(state.previewPanel)
      ensures state.isValidXml == old(state.isValidXml) && state.isRfcXml == old(state.isRfcXml) && state.parsedDoc == old(state.parsedDoc)
      ensures fs.files == ProcessFiles(old(fs.files), content, io)
      ensures var o := ProcessOutcome(old(fs.files), content, io);
        o.Returned? ==>
          && state.lastProcessingError == None && state.lastDiagnostics == o.value.diagnostics
          && state.cachedHtml == (if Truthy(o.value.html) then o.value.html else old(state.cachedHtml))
          && (diagnosticCollection != null ==>
                diagnosticCollection.entries == Published(old(diagnosticCollection.entries), state.uri, Some(o.value.diagnostics)))
          && (state.previewPanel != null ==>
                state.previewPanel.html == OrElse(o.value.html, ErrorHtml(CompileFailureTitle, Some(o.value.diagnostics))))
      ensures var o := ProcessOutcome(old(fs.files), content, io);
        o.Threw? ==>
          && state.lastProcessingError == Some(o.error) && state.lastDiagnostics == old(state.lastDiagnostics)
          && state.cachedHtml == old(state.cachedHtml)
          && (diagnosticCollection != null ==> diagnosticCollection.entries == old(diagnosticCollection.entries))
          && (state.previewPanel != null ==>
                state.previewPanel.html == ErrorHtml(ProcessingErrorTitle, Some(old(state.lastDiagnostics))))
      ensures diagnosticCollection != null ==> diagnosticCollection.disposed == old(diagnosticCollection.disposed)
    {
      state.StartProcessing();
      var o := RunService(state, content, fs, io);
      match o {
        case Returned(result) =>
          CompleteRun(state, result);
        case Threw(error) =>
          FailRun(state, error);
      }
    }

    /**
     * The `try` block of `_scheduleProcessing` up to the `await`: the service runs,
     * and the `onDiagnostics` callback stores and publishes what it is called with.
     */
    method RunService(state: DocumentState, content: string, fs: FileSystem, io: ProcessIo) returns (o: Outcome<ProcessingResult>)
      requires state.Valid()
      modifies state, diagnosticCollection, fs
      ensures o == ProcessOutcome(old(fs.files), content, io)
      ensures fs.files == ProcessFiles(old(fs.files), content, io)
      ensures state.Valid()
      ensures state.lastDiagnostics == if o.Returned? then o.value.diagnostics else old(state.lastDiagnostics)
      ensures diagnosticCollection != null ==>
        diagnosticCollection.entries ==
          if o.Returned? then Published(old(diagnosticCollection.entries), state.uri, Some(o.value.diagnostics))
          else old(diagnosticCollection.entries)
      ensures state.lastContent == old(state.lastContent) && state.isProcessing == old(state.isProcessing)
      ensures state.lastProcessingError == old(state.lastProcessingError)
      ensures state.processingTimer == old(state.processingTimer) && state.previewPanel == old(state.previewPanel)
      ensures state.cachedHtml == old(state.cachedHtml)
      ensures state.isValidXml == old(state.isValidXml) && state.isRfcXml == old(state.isRfcXml) && state.parsedDoc == old(state.parsedDoc)
      ensures diagnosticCollection != null ==> diagnosticCollection.disposed == old(diagnosticCollection.disposed)
    {
      var delivered;
      o, delivered := ProcessDocument(fs, content, io);
      if delivered != [] {
        StoreDiagnostics(state, delivered[0]);
      }
    }

    /** The `onDiagnostics` callback of a run: the diagnostics are stored in the state and published. */
    method StoreDiagnostics(state: DocumentState, diagnostics: seq<Diagnostic>)
      requires state.Valid()
      modifies state, diagnosticCollection
      ensures state.Valid() && state.lastDiagnostics == diagnostics
      ensures state.lastContent == old(state.lastContent) && state.isValidXml == old(state.isValidXml)
      ensures state.isRfcXml == old(state.isRfcXml) && state.parsedDoc == old(state.parsedDoc)
      ensures state.isProcessing == old(state.isProcessing) && state.lastProcessingError == old(state.lastProcessingError)
      ensures state.processingTimer == old(state.processingTimer) && state.previewPanel == old(state.previewPanel)
      ensures state.cachedHtml == old(state.cachedHtml)
      ensures diagnosticCollection != null ==>
        diagnosticCollection.entries == Published(old(diagnosticCollection.entries), state.uri, Some(diagnostics))
      ensures diagnosticCollection != null ==> diagnosticCollection.disposed == old(diagnosticCollection.disposed)
    {
      state.lastDiagnostics := diagnostics;
      UpdateDiagnostics(diagnosticCollection, state.uri, Some(state.lastDiagnostics));
    }

    /** A run that returned: no error is recorded, and the panel shows the HTML or the compile-failure page. */
    method CompleteRun(state: DocumentState, result: ProcessingResult)
      requires state.Valid()
      modifies state, state.previewPanel
      ensures state.Valid() && !state.isProcessing && state.lastProcessingError == None
      ensures state.cachedHtml == if Truthy(result.html) then result.html else old(state.cachedHtml)
      ensures state.lastContent == old(state.lastContent) && state.lastDiagnostics == old(state.lastDiagnostics)
      ensures state.processingTimer == old(state.processingTimer) && state.previewPanel == old(state.previewPanel)
      ensures state.previewPanel != null ==>
        state.previewPanel.html == OrElse(result.html, ErrorHtml(CompileFailureTitle, Some(result.diagnostics)))
      ensures state.isValidXml == old(state.isValidXml) && state.isRfcXml == old(state.isRfcXml) && state.parsedDoc == old(state.parsedDoc)
    {
      state.FinishProcessing(None, result.html);
      state.UpdatePreviewPanel(OrElse(result.html, ErrorHtml(CompileFailureTitle, Some(result.diagnostics))));
    }

    /** A run that threw: the error is recorded, and the panel shows the processing-error page with the last diagnostics. */
    method FailRun(state: DocumentState, error: JsError)
      requires state.Valid()
      modifies state, state.previewPanel
      ensures state.Valid() && !state.isProcessing && state.lastProcessingError == Some(error)
      ensures state.cachedHtml == old(state.cachedHtml)
      ensures state.lastContent == old(state.lastContent) && state.lastDiagnostics == old(state.lastDiagnostics)
      ensures state.processingTimer == old(state.processingTimer) && state.previewPanel == old(state.previewPanel)
      ensures state.previewPanel != null ==>
        state.previewPanel.html == ErrorHtml(ProcessingErrorTitle, Some(old(state.lastDiagnostics)))
      ensures state.isValidXml == old(state.isValidXml) && state.isRfcXml == old(state.isRfcXml) && state.parsedDoc == old(state.parsedDoc)
    {
      state.FinishProcessing(Some(error), None);
      state.UpdatePreviewPanel(ErrorHtml(ProcessingErrorTitle, Some(state.lastDiagnostics)));
    }

    /**
     * The pending timer of `uri` elapses: the state's timer field is cleared, then
     * the callback runs `_scheduleProcessing` once on the document's current text.
     */
    method FireTimer(uri: string, content: string, fs: FileSystem, io: ProcessIo)
      requires Valid() && uri in documents && documents[uri].processingTimer.Some?
      modifies documents[uri], documents[uri].previewPanel, diagnosticCollection, fs
      ensures Valid()
      ensures documents[uri].processingTimer == None && documents[uri].pendingTimers == {}
      ensures documents[uri].lastContent == old(documents[uri].lastContent)
      ensures !documents[uri].isProcessing
      ensures documents[uri].lastProcessingError ==
        match ProcessOutcome(old(fs.files), content, io)
        case Returned(_) => None
        case Threw(e) => Some(e)
      ensures fs.files == ProcessFiles(old(fs.files), content, io)
      ensures documents[uri].previewPanel == old(documents[uri].previewPanel)
      ensures documents[uri].isValidXml == old(documents[uri].isValidXml) && documents[uri].isRfcXml == old(documents[uri].isRfcXml)
      ensures documents[uri].parsedDoc == old(documents[uri].parsedDoc)
      ensures var o := ProcessOutcome(old(fs.files), content, io);
        var state := documents[uri];
        o.Returned? ==>
          && state.lastDiagnostics == o.value.diagnostics
          && state.cachedHtml == (if Truthy(o.value.html) then o.value.html else old(state.cachedHtml))
          && (diagnosticCollection != null ==>
                diagnosticCollection.entries == Published(old(diagnosticCollection.entries), uri, Some(o.value.diagnostics)))
          && (state.previewPanel != null ==>
                state.previewPanel.html == OrElse(o.value.html, ErrorHtml(CompileFailureTitle, Some(o.value.diagnostics))))
      ensures var o := ProcessOutcome(old(fs.files), content, io);
        var state := documents[uri];
        o.Threw? ==>
          && state.lastDiagnostics == old(state.lastDiagnostics)
          && state.cachedHtml == old(state.cachedHtml)
          && (diagnosticCollection != null ==> diagnosticCollection.entries == old(diagnosticCollection.entries))
          && (state.previewPanel != null ==>
                state.previewPanel.html == ErrorHtml(ProcessingErrorTitle, Some(old(state.lastDiagnostics))))
      ensures diagnosticCollection != null ==> diagnosticCollection.disposed == old(diagnosticCollection.disposed)
    {
      var state := documents[uri];
      state.Fire();
      ScheduleProcessing(state, content, fs, io);
    }

    /** The loop of `dispose()` that disposes every state in the registry. */
    method DisposeStates()
      modifies documents.Values, Panels()
      ensures forall u :: u in documents ==> documents[u].IsReleased()
      ensures forall u :: u in documents && old(documents[u].previewPanel) != null ==> old(documents[u].previewPanel).disposed
    {
      var remaining := documents.Keys;
      while remaining != {}
        invariant remaining <= documents.Keys
        invariant forall u :: u in documents && u !in remaining ==>
          documents[u].IsReleased() && (old(documents[u].previewPanel) != null ==> old(documents[u].previewPanel).disposed)
        invariant forall u :: u in documents ==>
          || (documents[u].IsReleased() && (old(documents[u].previewPanel) != null ==> old(documents[u].previewPanel).disposed))
          || documents[u].previewPanel == old(documents[u].previewPanel)
        decreases |remaining|
      {
        var u :| u in remaining;
        documents[u].Dispose();
        remaining := remaining - {u};
      }
    }

    /**
     * `dispose()`: every state is disposed, the registry emptied, and the
     * diagnostic collection cleared, disposed and dropped.
     */
    method Dispose()
      modifies this, documents.Values, Panels(), diagnosticCollection
      ensures Valid()
      ensures documents == map[] && diagnosticCollection == null
      ensures forall u :: u in old(documents) ==> old(documents)[u].IsReleased()
      ensures forall u :: u in old(documents) && old(documents[u].previewPanel) != null ==> old(documents[u].previewPanel).disposed
      ensures old(diagnosticCollection) != null ==>
        old(diagnosticCollection).entries == map[] && old(diagnosticCollection).disposed
    {
      DisposeStates();
      documents := map[];
      if diagnosticCollection != null {
        diagnosticCollection.Clear();
        diagnosticCollection.Dispose();
        diagnosticCollection := null;
      }
    }
  }
}

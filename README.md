# xml2rfc preview: a Dafny model

This project models the core of a VS Code extension that previews RFC XML
documents through the external `xml2rfc` tool. It also proves properties of that model.

The model has the following parts:

- **`DocumentState`** (`Documents.dfy`) is a class with one object per open document.
  - It holds the last content snapshot and the flags `isValidXml`, `isRfcXml` and `isProcessing`.
  - It also holds the HTML cache, the last error and diagnostics, the preview panel, and a single debounce timer.
  - A timer is a numbered token, and `Fire` consumes it. The ghost set `pendingTimers` records the timers that are live. The invariant `TimersTracked` states that no timer is leaked and that there is never more than one.
  - The XML parser is foreign code. What it makes of a text is a `ParseAttempt` value: a parsed document or a thrown error. It is passed to the update that stores the text.
- **The diagnostic parser** (`DiagnosticParser.dfy`) turns xml2rfc's stderr into `(line, severity, message)` records.
  - Each line is tried against two anchored regular expressions, in order.
  - The model states each expression as its least split point. This is how the lazy `(.+?)` group backtracks.
  - JavaScript's `.` does not match line terminators, and the model accounts for that.
  - The imperative loop `ParseDiagnostics` is proved equal to the function `Parse`.
- **The processing service** (`Processing.dfy`) is one run of xml2rfc over a snapshot.
  - The text is staged in a temporary file, the tool runs, and the HTML is read back.
  - The outcome is classified: ENOENT, then a killed process, then a soft failure. Errors are normalised.
  - Both temporary files are unlinked on every path.
  - The temporary directory is a `FileSystem` object whose `files` map the methods change.
- **The registry** (`Extension.dfy`): `ExtensionState` maps document URIs to states.
  - It provides get-or-create, remove, handle-update, the timer-fired processing run, and dispose-all.
  - Its invariant says every state is filed under its own URI and is consistent.
- **Diagnostic publication** (`DiagnosticsUtils.dfy`) converts records to editor diagnostics. It replaces the entry of one URI in a URI-keyed collection.
- **Preview pages** (`Preview.dfy`) covers three things:
  - the error page with its `Line <n>: <message>` items;
  - the loading page built with `String.prototype.replace`, which also expands `$` patterns;
  - the `updateContent` fallback.
- **Small pieces of JavaScript semantics** (`JsText.dfy`) are stated over `string`: `trim`, `split`, `endsWith`, `replace` with a string pattern, `parseInt` on a digit run, and `||` on strings. `Constants.dfy` holds the literal settings.

Everything outside the process becomes explicit values, carried by `ProcessIo`:

- the temporary directory and the two readings of the clock;
- a fault for the write, a fault for the read, and the set of paths whose unlink fails;
- a `ToolRun`: how `exec` settles and which output file the tool leaves behind.

The asynchronous code is modelled as sequential methods.

Behaviour of the code worth noting:

- **A failed read of the generated HTML is not a separate unrecoverable error.**
  - If the file is missing, the read fails with ENOENT. That lands in the same `catch` as the `exec` failure, so it is reported as "command not found" (`MissingOutputIsCommandNotFound`).
  - Any other read failure becomes a soft failure. Its diagnostics come from the read error, which has no stderr, so the tool's own diagnostics are dropped (`ReadFailureDropsDiagnostics`).
- **A thrown error does not show the diagnostics parsed before it.** The processing-error page shows the state's previous `lastDiagnostics`, because `onDiagnostics` is not called on that path (`ExtensionState.ScheduleProcessing`, `ExtensionState.FailRun`).
- **A document is not processed when it is first seen.** In `handleDocumentUpdate`, the state created by `getOrCreateDocumentState` arms a timer in the constructor's `updateFromDocument`. The second `updateFromDocument`, which gets identical content, cancels that timer and arms none. A newly opened RFC document is therefore processed only after an edit or an explicit preview (`ExtensionState.TrackUpdate`, `ExtensionState.HandleDocumentUpdate`).
- **A write failure does not use the repository's message constants.** It is rethrown as the file system's own error, and `FILE_WRITE` and `FILE_READ` are never used (`WriteFailurePropagates`).

## Model

| member | source | states |
|---|---|---|
| JsText.Trim | processingService.js:114 | `trim()` gives the infix left after cutting white space (ECMAScript WhiteSpace and LineTerminator) off both ends; the result is empty exactly when the input is all white space, and otherwise starts and ends with a non-space |
| JsText.TrimOfTrimmed | processingService.js:125 | a string that neither starts nor ends with white space is its own trim |
| JsText.Split | processingService.js:110 | `split("\n")` returns at least one piece, no piece holds the separator, and joining the pieces with it gives the input back |
| JsText.SplitWithoutSeparator | processingService.js:110 | a string without the separator splits into itself alone |
| JsText.NatToStringRoundTrip | previewManager.js:83 | reading back a number rendered in decimal, as `parseInt` reads a digit run, gives the number |
| JsText.OrElse | processingService.js:92-93 | `a \|\| b` on strings is `a` when `a` is a non-empty string and `b` when it is empty or absent |
| JsText.IndexOf | previewManager.js:58 | the search finds a position exactly when the pattern occurs at or after the start, and that position is the first occurrence |
| JsText.ExpandPlain | previewManager.js:58 | a replacement string without `$` is inserted literally |
| JsText.ReplaceFirstAt | previewManager.js:58 | `replace` with a string pattern substitutes, with `$` patterns expanded, at the first occurrence of the pattern and only there |
| JsText.ReplaceFirst | previewManager.js:58 | `replace` with a string pattern leaves a string without the pattern unchanged, and keeps the text before the first occurrence |
| JsText.EndsWithSomeSuffix | extensionState.js:71 | `endsWith` holds exactly when some suffix of the string is the given one |
| DiagnosticParser.DigitRun | processingService.js:14-15 | the greedy `(\d+)` group: the maximal run of ASCII digits from a position |
| DiagnosticParser.CapturesAt | processingService.js:14-15 | a match captures a non-empty digit group and a non-empty message; pattern A captures `Warning` or `Error`, and pattern B no keyword |
| DiagnosticParser.FirstSplit | processingService.js:14-15 | the lazy `(.+?)` group ends at the smallest index from which the rest of the pattern matches; there is none exactly when no index works |
| DiagnosticParser.Match | processingService.js:116 | the line group of a match is a non-empty run of decimal digits |
| DiagnosticParser.ZeroBasedLine | processingService.js:120 | a 1-based line number `n >= 1` becomes line `n - 1`; `0` is clamped to line 0 |
| DiagnosticParser.ParseLineYields | processingService.js:113-138 | a line yields a record exactly when it is not blank and one of the two patterns matches it; a line only the second pattern matches yields an error |
| DiagnosticParser.ParseDiagnostics | processingService.js:107-142 | the loop over the lines returns exactly `Parse(stderr)` |
| DiagnosticParser.ParseEmpty | processingService.js:108 | empty stderr (also `err.stderr \|\| ""` for an absent stderr) yields no records |
| DiagnosticParser.ParseLinesAppend | processingService.js:113-139 | the records of a concatenation of lines are the records of the parts in order, so output order follows input order |
| DiagnosticParser.ParseLinesSingle | processingService.js:113-139 | one line contributes its own record or nothing |
| DiagnosticParser.ParseLinesBounded | processingService.js:113-139 | there are at most as many records as lines |
| DiagnosticParser.Parse | processingService.js:107-141 | the records of stderr never outnumber its `\n`-separated lines |
| DiagnosticParser.ParseOrigin | processingService.js:110-140 | every record `_parseDiagnostics` returns is the record of one `\n`-separated line of stderr |
| DiagnosticParser.ParseLinesOrigin | processingService.js:113-139 | every record is the record of some input line |
| DiagnosticParser.UnmatchedLineDropped | processingService.js:114-138 | a blank line, or a line matching neither pattern, yields no record |
| DiagnosticParser.ParseOneLine | processingService.js:108-110 | non-empty stderr without `\n` is parsed as a single line |
| DiagnosticParser.ParseSingleLine | processingService.js:108-141 | stderr that is one terminator-free line yields exactly that line's record |
| DiagnosticParser.LineTerminatorDropped | processingService.js:14-15 | a line holding `\r` or another line terminator (a CRLF line) matches neither pattern and yields nothing |
| DiagnosticParser.ValidationTakesPrecedence | processingService.js:116-128 | a line pattern A matches yields the record of that match, and pattern B is not consulted |
| DiagnosticParser.SeverityIsWarningIff | processingService.js:121-124 | a record's severity is Warning exactly when pattern A matched with the keyword `Warning` |
| DiagnosticParser.LineIsCapturedNumberMinusOne | processingService.js:120 | a record's line is `max(0, n - 1)` for the captured number `n`, and its message is the trimmed message group |
| DiagnosticParser.MatchAtLeastSplit | processingService.js:14-15 | the match is the one whose source group ends at the least split point |
| DiagnosticParser.TwelveIsLineEleven | processingService.js:120 | the captured line `12` becomes line 11 |
| DiagnosticParser.ValidationNeedsParen | processingService.js:14 | a line without `(` never matches pattern A |
| DiagnosticParser.ValidationExampleSplit | processingService.js:14 | in `doc.xml(12): Warning: undefined reference` the source group is `doc.xml`, and the groups are `12`, `Warning` and `undefined reference` |
| DiagnosticParser.ValidationLineExample | processingService.js:116-126 | `doc.xml(12): Warning: undefined reference` parses to the one record (11, Warning, `undefined reference`) |
| DiagnosticParser.XmlErrorExampleSplit | processingService.js:15 | in `doc.xml: Line 5: not well-formed` the source group is `doc.xml`, and the groups are `5` and `not well-formed` |
| DiagnosticParser.XmlErrorLineExample | processingService.js:130-137 | `doc.xml: Line 5: not well-formed` parses to the one record (4, Error, `not well-formed`) |
| DiagnosticsUtils.CreateVsDiagnostics | diagnosticsUtils.js:12-21 | a non-array gives no diagnostics; otherwise there is one per record, in order, on the single line of the record from column 0 to `MAX_LINE_LENGTH`, with its message and severity |
| DiagnosticsUtils.ConversionRoundTrip | diagnosticsUtils.js:17-20 | the records can be read back from their editor diagnostics: the conversion loses nothing |
| DiagnosticsUtils.ConversionAppend | diagnosticsUtils.js:17-20 | the conversion maps a concatenation to the concatenation of the conversions |
| DiagnosticsUtils.Published | diagnosticsUtils.js:29-38 | after publication the entry of the URI exists exactly when there are records and is their conversion; every other entry is unchanged |
| DiagnosticsUtils.PublishReplaces | diagnosticsUtils.js:32-37 | publishing replaces rather than appends: only the last publication for a URI counts |
| DiagnosticsUtils.PublishCommutes | diagnosticsUtils.js:32-37 | publications for different URIs commute |
| DiagnosticsUtils.UpdateDiagnostics | diagnosticsUtils.js:29-38 | with a collection, the entries become the publication of the records; without one, nothing happens |
| DiagnosticsUtils.DiagnosticCollection.Delete | diagnosticsUtils.js:32 | the entry of the URI is removed and nothing else changes |
| DiagnosticsUtils.DiagnosticCollection.Set | diagnosticsUtils.js:36 | the entry of the URI is replaced and nothing else changes |
| DiagnosticsUtils.DiagnosticCollection.Clear | extensionState.js:151 | every entry is removed |
| DiagnosticsUtils.DiagnosticCollection.Dispose | extensionState.js:152 | the collection is marked disposed and, since `dispose` also clears it, emptied |
| Preview.Panel.Dispose | documentState.js:157 | the panel is marked disposed and keeps its HTML |
| Preview.ErrorList | previewManager.js:80-85 | the item list of a non-empty sequence of diagnostics is non-empty |
| Preview.ErrorHtmlWithoutDiagnostics | previewManager.js:121-125 | with no or empty diagnostics the page holds the "No specific errors detected." paragraph and no list |
| Preview.ErrorHtmlWithDiagnostics | previewManager.js:79-130 | with diagnostics the page holds one `<ul>` of their items, in input order, between the heading and the hint |
| Preview.ErrorListAppend | previewManager.js:82-84 | the items of a concatenation are the items of the parts, in order |
| Preview.MessageInHeading | previewManager.js:120 | the message stands verbatim, unescaped, right after the heading's opening tag |
| Preview.ErrorItemLine | previewManager.js:83 | an item shows the line 1-based, `Line <line+1>: <message>`, and reading its number back the way the parser does gives the 0-based line |
| Preview.ErrorItem | previewManager.js:83 | an item opens with `<li>Line ` and closes with `: <message></li>` |
| Preview.LoadingHtmlShape | previewManager.js:57-59 | the loading page is the template with its placeholder replaced by the `$`-expanded file name |
| Preview.LoadingHtml | previewManager.js:58 | whatever the file name, the loading page keeps the template's head before it and its tail after it |
| Preview.PlaceholderFirstAt | previewManager.js:58 | the template's first `{{fileName}}` stands right after its head |
| Preview.LoadingHtmlPlain | previewManager.js:58 | a file name without `$` lands in the loading page literally |
| Preview.ShowLoading | previewManager.js:57-59 | the panel shows the loading page of the file name |
| Preview.ContentOrError | previewManager.js:68-69 | non-empty HTML is shown as it is; empty HTML gives the "Failed to generate preview" page |
| Preview.UpdateContent | previewManager.js:66-71 | a panel shows the HTML or the fallback page; without a panel nothing happens |
| Processing.TempFilePathShape | processingService.js:150-152 | a temporary path is the directory, `/xml2rfc-`, the clock and the extension, so it ends with `.<ext>` |
| Processing.TempFilePath | processingService.js:150-152 | the clock reading can be read back, as a decimal number, from between `xml2rfc-` and `.<ext>` |
| Processing.TempPathsDistinctClocks | processingService.js:150-152 | two different clock readings give two different paths for the same extension |
| Processing.TempPathsDiffer | processingService.js:41-42 | the input and output paths never collide, whatever the two clock readings are |
| Processing.NotFound | processingService.js:79 | the error of reading a missing file is an `Error` with code ENOENT, not killed, without stderr |
| Processing.ReadSpec | processingService.js:79 | the read returns the contents exactly when there is no fault and the file exists; a missing file fails with ENOENT |
| Processing.FileSystem.WriteFile | processingService.js:46 | the write fails with the fault if there is one, and otherwise stores the text |
| Processing.FileSystem.ReadFile | processingService.js:79 | the read returns what `ReadSpec` gives and changes nothing |
| Processing.FileSystem.Unlink | processingService.js:161 | a path is removed unless the unlink fails; the call succeeds exactly when it did not fail and the path existed |
| Processing.ClassifyFailure | processingService.js:81-99 | ENOENT throws "command not found" before a killed process throws "timed out"; anything else returns no HTML, the diagnostics of `err.stderr`, and the first non-empty of stderr, message and "Unknown error occurred" as details |
| Processing.SoftFailureHasDetails | processingService.js:92-93 | the details of a soft failure are never empty |
| Processing.NormalizeError | processingService.js:170-173 | the result is always an `Error`; an `Error` passes through unchanged; anything else becomes an `Error` with its message or the invalid-output message |
| Processing.NormalizeIdempotent | processingService.js:170-173 | normalising twice is normalising once |
| Processing.RecoverFromFailure | processingService.js:81-99 | the `catch` of `_executeXml2rfc` computes `ClassifyFailure` |
| Processing.ExecuteXml2rfc | processingService.js:69-100 | the run starts `xml2rfc --no-dtd --no-network --html --out "<html>" "<xml>"` with the 30 s timeout and 1 MiB buffer, and its outcome is the parsed stderr with the read HTML, or the classification of the failure; the files change only by the tool's output |
| Processing.CleanupFiles | processingService.js:160-162 | every path whose unlink does not fail is removed, all others stay, and failures are swallowed |
| Processing.ProcessDocument | processingService.js:32-60 | the outcome is the normalised outcome of staging and running the tool; `onDiagnostics` receives the result's diagnostics exactly once when a result is returned and is never called when an error is thrown; both temporary files are unlinked on every path |
| Processing.CleanupRemovesTempFiles | processingService.js:56-59 | when no unlink fails, a run leaves exactly the files it found minus the two temporary paths |
| Processing.OutcomeShape | processingService.js:54-98 | a thrown outcome is an `Error`; a returned one carries HTML exactly when it has no error details, and its details are never empty |
| Processing.SuccessfulRun | processingService.js:77-80 | a clean exit with output returns the parsed stderr, the HTML and no details |
| Processing.MissingOutputIsCommandNotFound | processingService.js:76-86 | a clean exit without an output file is reported as "command not found" |
| Processing.ReadFailureDropsDiagnostics | processingService.js:79-83 | a read failure other than ENOENT after a clean exit is a soft failure without diagnostics, whatever the tool printed |
| Processing.WriteFailurePropagates | processingService.js:44-55 | a failed write is rethrown as it is, and nothing is staged |
| Documents.ParseAndValidateXml | documentState.js:188-206 | the content is valid exactly when the parser returned a document without a `parsererror` element, and RFC XML exactly when that valid document's root is `rfc`; the parsed document is kept exactly when it is valid |
| Documents.RfcImpliesValid | documentState.js:194-204 | invalid XML is never RFC XML |
| Documents.StripTrailingSlashesShape | documentState.js:19 | stripping trailing slashes keeps a prefix that does not end in `/` and drops only slashes |
| Documents.AfterLastSlashShape | documentState.js:19 | the part after the last `/` holds no `/`, ends the path, and is the whole path or follows a `/` |
| Documents.BasenameShape | documentState.js:19 | `path.basename` gives the last segment of the path once trailing slashes are dropped |
| Documents.BasenameOfPlainName | documentState.js:19 | a name without a directory is its own base name |
| Documents.DocumentState.ShouldProcess | documentState.js:134-136 | in a consistent state, the document should be processed exactly when it is RFC XML, that is, when the parser made RFC XML of the last content |
| Documents.DocumentState.NeedsProcessing | documentState.js:142-144 | in a consistent state, processing is needed exactly when the content is valid RFC XML, nothing is cached and no run is in flight |
| Documents.DocumentState.constructor | documentState.js:16-45 | a new state holds the content, the base name and the validation of the content; nothing is cached, in flight or recorded; a timer is pending exactly when a callback was given and the content is valid RFC XML |
| Documents.DocumentState.UpdateFromDocument | documentState.js:51-77 | the pending timer is always cleared, and no timer is leaked; identical content changes nothing else and arms nothing; new content is stored and validated and clears the cache; a fresh timer, recorded as pending, is set exactly when the content is new, processing is needed and a callback exists |
| Documents.DocumentState.ParseAndComputeState | documentState.js:175-180 | the three flags become the validation of the content, and nothing else changes |
| Documents.DocumentState.InvalidateCache | documentState.js:212-214 | the cache is empty, and nothing else changes |
| Documents.DocumentState.ClearTimer | documentState.js:53-56 | no timer is pending afterwards, and nothing else changes |
| Documents.DocumentState.StartProcessing | documentState.js:82-85 | a run is in flight and no error is recorded; nothing else changes |
| Documents.DocumentState.FinishProcessing | documentState.js:92-98 | no run is in flight and the error is recorded; the HTML is cached only when it is non-empty and there is no error; no timer is armed |
| Documents.DocumentState.SetPreviewPanel | documentState.js:104-106 | the panel is attached, and nothing else changes |
| Documents.DocumentState.UpdatePreviewPanel | documentState.js:112-116 | an attached panel shows the HTML; without a panel nothing happens |
| Documents.DocumentState.RevealPreviewPanel | documentState.js:122-128 | the call answers true exactly when a panel is attached |
| Documents.DocumentState.Fire | documentState.js:72-74 | a pending timer fires: the field is cleared and the timer leaves the pending set, so it can never fire again |
| Documents.DocumentState.Dispose | documentState.js:149-168 | the timer is cleared and no timer remains pending; the old panel is disposed (keeping its HTML) and dropped; the cache, content, document, diagnostics and error are cleared and no run is in flight; the validity flags keep their values |
| Documents.StaleResultIsCached | documentState.js:61-98 | new content that arrives during a run arms no timer, and the run's HTML is then cached against the new content, which therefore needs no processing |
| Extension.ExtensionState.constructor | extensionState.js:9-13 | the registry is empty and there is no collection |
| Extension.ExtensionState.Initialize | extensionState.js:19-23 | a new, empty diagnostic collection is created; the registry is unchanged; the new collection is not disposed |
| Extension.ExtensionState.GetOrCreateDocumentState | extensionState.js:30-43 | an existing state is returned and nothing changes; otherwise a new state for the current content is added under the URI, and no other entry changes |
| Extension.ExtensionState.RemoveDocumentState | extensionState.js:49-62 | a tracked state is disposed, its panel disposed, its key dropped and its diagnostics deleted; an untracked URI changes nothing; the other entries stay; the collection is disposed afterwards exactly when it was before |
| Extension.ExtensionState.HandleDocumentUpdate | extensionState.js:69-85 | a `.git` file name changes nothing: no state, no entry, no registry change. Otherwise the state is fetched or created and updated, other states are untouched, and its last diagnostics are published exactly when it does not need processing. A first-seen document is validated, has no cache and no pending timer. A tracked document gets `updateFromDocument`'s effects: identical content keeps the cache and flags; new content is validated and clears the cache; a timer is pending exactly when the content is new and processing is needed |
| Extension.ExtensionState.TrackUpdate | extensionState.js:75-76 | the state under the URI is fetched or created and then updated: a first-seen document is stored with the content, validated, uncached, without panel and without a pending timer; a tracked document keeps its identity and gets `updateFromDocument`'s effects; no other entry changes |
| Extension.ExtensionState.PublishLastDiagnostics | extensionState.js:93-99 | the state's last diagnostics are published under the URI |
| Extension.ExtensionState.ScheduleProcessing | extensionState.js:107-137 | the run always ends with no run in flight. A returned result stores and publishes its diagnostics, caches non-empty HTML, and shows the HTML or the "Failed to compile RFC XML" page. A thrown error is recorded, keeps the previous diagnostics and cache, and shows the "Processing Error" page with the previous diagnostics; the validity flags and the parsed document are kept; the collection is disposed afterwards exactly when it was before |
| Extension.ExtensionState.RunService | extensionState.js:110-118 | the service runs, and the diagnostics it delivers are stored in the state and published; a thrown error leaves both as they were; the validity flags and the parsed document are kept; the collection is disposed afterwards exactly when it was before |
| Extension.ExtensionState.StoreDiagnostics | extensionState.js:114-117 | the `onDiagnostics` callback stores the diagnostics in the state and publishes them under the state's URI; the collection is disposed afterwards exactly when it was before |
| Extension.ExtensionState.CompleteRun | extensionState.js:120-127 | the run is finished without an error, and the panel shows the HTML or the compile-failure page with the result's diagnostics; the validity flags and the parsed document are kept |
| Extension.ExtensionState.FailRun | extensionState.js:128-136 | the run is finished with the error, the cache is kept, and the panel shows the processing-error page with the last diagnostics; the validity flags and the parsed document are kept |
| Extension.ExtensionState.FireTimer | documentState.js:72-75 | a pending timer fires: the field is cleared first, then `_scheduleProcessing` runs once on the current text, leaving no timer and no run in flight. A returned result stores and publishes its diagnostics, caches non-empty HTML and shows the HTML or the compile-failure page. A thrown error keeps the diagnostics and cache and shows the processing-error page. The panel and the validity flags are kept; the collection is disposed afterwards exactly when it was before |
| Extension.ExtensionState.DisposeStates | extensionState.js:144-146 | every tracked state is disposed, and every panel one of them held is disposed |
| Extension.ExtensionState.Dispose | extensionState.js:142-158 | every state is disposed, every panel disposed, the registry emptied, and the collection cleared, disposed and dropped |

## Left out

- I/O, time and concurrency are left out. `child_process.exec`, `fs`, `os.tmpdir` and `Date.now` are values in `ProcessIo`. `setTimeout`, `clearTimeout` and the 250 ms delay become the timer token and `Fire`. The `async` functions run to completion without interleaving; `StaleResultIsCached` covers one interleaving: new content arriving while a run is in flight. Other interleavings are not modelled. For example, if the document is closed or the extension disposed during a run, the run's `finishProcessing` caches its HTML on a state that is already disposed.
- The tool's behaviour is a given `ToolRun` per run. The model does not relate it to the command line, the staged input or the limits.
- `ProcessDocument` takes the document's text. The "Invalid document provided" and "Invalid diagnostics callback provided" checks cannot fail with these types.
- The `onDiagnostics` callback cannot throw in the model.
- DiagnosticsUtils.CreateVsDiagnostics: treats the `vscode.Diagnostic` constructor as total. The editor's constructor rejects an empty message, and a message group made only of white space trims to `""` (processingService.js:125, 136). On such a line the actual callback stores the records, deletes the URI's entry and then throws. The run then ends on the "Processing Error" page, which shows the new records, and the cache is kept. The model instead takes the returned branch of `ExtensionState.ScheduleProcessing`: it caches the HTML and publishes the records.
- `@xmldom/xmldom`'s `DOMParser` is foreign code. Its result is a parameter (`ParseAttempt`). Of the DOM, only the root tag and the element tags are kept.
- extension.js (command and event wiring, the active-editor checks, the preview command that creates panels) is not part of this model.
- `createPreviewPanel` and the panel's `onDidDispose` callback are not modelled, because they are editor UI. For the same reason, `revealPreviewPanel` reports whether a panel exists but does not model the reveal itself.
- The `PreviewManager` object, and its reset to `null` in `dispose`, are left out. Its page functions are modelled as plain functions.
- The CSS and head elements of the page templates are abbreviated to constants, since they are presentation only. The template whitespace is dropped too; the structure of the pages is kept.
- `parseInt` is exact on digit runs of any length. JavaScript numbers lose precision beyond 2^53, and the model ignores this.
- `path.basename` follows POSIX. Windows separators are outside the model.
- `_lastModified` is left out because it is written but never read.
- `FILE_WRITE`, `FILE_READ`, `INVALID_DOCUMENT` and `WRONG_LANGUAGE` are used by none of the modelled operations.
- The temporary names come from `Date.now()`. Two runs started in the same millisecond would therefore share both paths. Only `TempPathsDiffer` is proved: within one run, the input and the output path differ.
- Only the Warning and Error values of `vscode.DiagnosticSeverity` are modelled, because they are the only values the parser produces.

/**
 * The preview manager: the pages shown in a preview panel.
 *
 * The error page lists the diagnostics as `Line <n>: <message>` items with the
 * 1-based line number, under a heading that holds the caller's message as it is.
 * The loading page is a template whose first `{{fileName}}` placeholder is
 * replaced with the file name by `String.prototype.replace`. The style sheets
 * and head elements of both pages are abbreviated to constants; the structure
 * the pages are built from is kept.
 */
module Preview {
  import opened JsText
  import opened DiagnosticParser

  /** A webview panel: the HTML it shows, and whether it has been disposed. */
  class Panel {
    var html: string
    var disposed: bool

    constructor()
      ensures html == "" && !disposed
    {
      html := "";
      disposed := false;
    }

    method Dispose()
      modifies this
      ensures disposed && html == old(html)
    {
      disposed := true;
    }
  }

  // ---------------------------------------------------------------------------
  // The error page
  // ---------------------------------------------------------------------------

  const ErrorPageHead: string := "<!DOCTYPE html><html><head>" + "<title>xml2rfc Preview Error</title>" + "<style></style></head><body>"
  const HeadingOpen: string := "<h1>\U{274C} "
  const HeadingClose: string := "</h1>"
  const NoErrorsParagraph: string := "<p class=\"no-errors\">" + "No specific errors detected.</p>"
  const ProblemsHint: string := "<p>Check the Problems panel for " + "detailed error locations.</p>"
  const ErrorPageTail: string := "</body></html>"

  /** `<li>Line ${d.line + 1}: ${d.message}</li>`: a list item that ends with the message. */
  function ErrorItem(d: Diagnostic): (item: string)
    ensures |item| >= 9 && item[..9] == "<li>Line "
    ensures EndsWith(item, ": " + d.message + "</li>")
  {
    var n := NatToString(d.line + 1);
    var item := "<li>Line " + n + ": " + d.message + "</li>";
    assert item == "<li>Line " + (n + (": " + d.message + "</li>"));
    assert item[|item| - |": " + d.message + "</li>"|..] == ": " + d.message + "</li>";
    item
  }

  /** `diagnostics.map(ErrorItem).join("")`. */
  function ErrorList(ds: seq<Diagnostic>): (list: string)
    ensures ds != [] ==> list != []
  {
    if ds == [] then "" else ErrorItem(ds[0]) + ErrorList(ds[1..])
  }

  /** The `<h1>` line: the message, unescaped. */
  function Heading(message: string): string {
    HeadingOpen + message + HeadingClose
  }

  /** The `<ul>` of the items, or the "no specific errors" paragraph when there are none. */
  function ErrorSection(list: string): string {
    if list != "" then "<ul>" + list + "</ul>" else NoErrorsParagraph
  }

  /** `getErrorHtml(message, diagnostics)`; `None` stands for an omitted or non-array argument. */
  function ErrorHtml(message: string, diagnostics: Option<seq<Diagnostic>>): string {
    var list := if diagnostics.Some? && |diagnostics.value| > 0 then ErrorList(diagnostics.value) else "";
    ErrorPageHead + Heading(message) + ErrorSection(list) + ProblemsHint + ErrorPageTail
  }

  /** With no diagnostics, the page holds the "no specific errors" paragraph and no list. */
  lemma ErrorHtmlWithoutDiagnostics(message: string, diagnostics: Option<seq<Diagnostic>>)
    requires diagnostics.None? || diagnostics.value == []
    ensures ErrorHtml(message, diagnostics) == ErrorPageHead + Heading(message) + NoErrorsParagraph + ProblemsHint + ErrorPageTail
  {
  }

  /** With diagnostics, the page holds one list of their items, in input order. */
  lemma ErrorHtmlWithDiagnostics(message: string, ds: seq<Diagnostic>)
    requires ds != []
    ensures ErrorHtml(message, Some(ds)) == ErrorPageHead + Heading(message) + ("<ul>" + ErrorList(ds) + "</ul>") + ProblemsHint + ErrorPageTail
  {
  }

  /** The items of a concatenation are the items of the parts, in order. */
  lemma {:induction false} ErrorListAppend(a: seq<Diagnostic>, b: seq<Diagnostic>)
    ensures ErrorList(a + b) == ErrorList(a) + ErrorList(b)
  {
    if a != [] {
      assert (a + b)[1..] == a[1..] + b;
      ErrorListAppend(a[1..], b);
    } else {
      assert a + b == b;
    }
  }

  /** The message sits verbatim right after the heading's opening tag. */
  lemma MessageInHeading(message: string, diagnostics: Option<seq<Diagnostic>>)
    ensures var page := ErrorHtml(message, diagnostics);
      var at := |ErrorPageHead| + |HeadingOpen|;
      at + |message| <= |page| && page[at..at + |message|] == message
  {
    var section := ErrorSection(if diagnostics.Some? && |diagnostics.value| > 0 then ErrorList(diagnostics.value) else "");
    InfixOfPage(ErrorPageHead, HeadingOpen, message, HeadingClose, section, ProblemsHint, ErrorPageTail);
  }

  lemma InfixOfPage(a: string, h: string, m: string, c: string, s: string, p: string, t: string)
    ensures var page := a + (h + m + c) + s + p + t;
      |a| + |h| + |m| <= |page| && page[|a| + |h|..|a| + |h| + |m|] == m
  {
    var page := a + (h + m + c) + s + p + t;
    assert page == (a + h + m) + (c + s + p + t);
    assert (a + h + m)[|a| + |h|..] == m;
  }

  /**
   * The item of a diagnostic shows its line 1-based: reading the number back the
   * way the diagnostic parser does gives the original 0-based line.
   */
  lemma ErrorItemLine(d: Diagnostic)
    ensures var n := NatToString(d.line + 1);
      && ErrorItem(d) == "<li>Line " + n + ": " + d.message + "</li>"
      && AllDigits(n) && DigitsValue(n) == d.line + 1
      && ZeroBasedLine(n) == d.line
  {
    NatToStringRoundTrip(d.line + 1);
  }

  // ---------------------------------------------------------------------------
  // The loading page
  // ---------------------------------------------------------------------------

  const FileNamePlaceholder: string := "{{fileName}}"
  const LoadingHead: string :=
    "<!DOCTYPE html><html><head>" + "<title>Loading xml2rfc Preview</title>"
    + "<style></style></head><body>" + "<h1>Loading Preview</h1>"
    + "<p>Preparing xml2rfc preview for "
  const LoadingTail: string := "...</p></body></html>"

  /**
   * `LOADING_TEMPLATE.replace("{{fileName}}", fileName)`. Whatever the file name,
   * the page keeps the template's head and tail around it.
   */
  function LoadingHtml(fileName: string): (page: string)
    ensures |LoadingHead| <= |page| && page[..|LoadingHead|] == LoadingHead
    ensures EndsWith(page, LoadingTail)
  {
    var t := LoadingHead + FileNamePlaceholder + LoadingTail;
    var i := |LoadingHead|;
    PlaceholderFirstAt(t);
    ReplaceFirstAt(t, FileNamePlaceholder, fileName, i);
    assert t[..i] == LoadingHead;
    assert t[i + |FileNamePlaceholder|..] == LoadingTail;
    var page := ReplaceFirst(t, FileNamePlaceholder, fileName);
    var x := ExpandReplacement(fileName, FileNamePlaceholder, LoadingHead, LoadingTail);
    assert page == LoadingHead + x + LoadingTail;
    assert page[..i] == LoadingHead;
    assert page[|page| - |LoadingTail|..] == LoadingTail;
    page
  }

  /**
   * The placeholder is replaced where it stands; `$` sequences in the file name
   * are expanded as replacement patterns.
   */
  lemma LoadingHtmlShape(fileName: string)
    ensures LoadingHtml(fileName) == LoadingHead + ExpandReplacement(fileName, FileNamePlaceholder, LoadingHead, LoadingTail) + LoadingTail
  {
    var t := LoadingHead + FileNamePlaceholder + LoadingTail;
    var i := |LoadingHead|;
    PlaceholderFirstAt(t);
    ReplaceFirstAt(t, FileNamePlaceholder, fileName, i);
    assert t[..i] == LoadingHead;
    assert t[i + |FileNamePlaceholder|..] == LoadingTail;
  }

  /** The template's first placeholder stands right after the head. */
  lemma PlaceholderFirstAt(t: string)
    requires t == LoadingHead + FileNamePlaceholder + LoadingTail
    ensures OccursAt(t, FileNamePlaceholder, |LoadingHead|)
    ensures forall j :: 0 <= j < |LoadingHead| ==> !OccursAt(t, FileNamePlaceholder, j)
  {
    var i := |LoadingHead|;
    assert t[i..i + |FileNamePlaceholder|] == FileNamePlaceholder;
    NoBraceInHead();
    forall j | 0 <= j < i ensures !OccursAt(t, FileNamePlaceholder, j) {
      assert t[j] == LoadingHead[j];
      assert FileNamePlaceholder[0] == '{';
    }
  }

  /** `s` holds no `{`, so no placeholder can start in it. */
  predicate NoBrace(s: string) {
    forall i :: 0 <= i < |s| ==> s[i] != '{'
  }

  lemma NoBraceConcat(a: string, b: string)
    requires NoBrace(a) && NoBrace(b)
    ensures NoBrace(a + b)
  {
    forall i | 0 <= i < |a + b| ensures (a + b)[i] != '{' {
      if i >= |a| {
        assert (a + b)[i] == b[i - |a|];
      }
    }
  }

  lemma NoBraceInHead()
    ensures NoBrace(LoadingHead)
  {
    var a := "<!DOCTYPE html><html><head>";
    var b := "<title>Loading xml2rfc Preview</title>";
    var c := "<style></style></head><body>";
    var d := "<h1>Loading Preview</h1>";
    var e := "<p>Preparing xml2rfc preview for ";
    assert NoBrace(a) && NoBrace(b) && NoBrace(c) && NoBrace(d) && NoBrace(e);
    NoBraceConcat(a, b);
    NoBraceConcat(a + b, c);
    NoBraceConcat(a + b + c, d);
    NoBraceConcat(a + b + c + d, e);
  }

  /** A file name without `$` lands in the page literally. */
  lemma LoadingHtmlPlain(fileName: string)
    requires '$' !in fileName
    ensures LoadingHtml(fileName) == LoadingHead + fileName + LoadingTail
  {
    LoadingHtmlShape(fileName);
    ExpandPlain(fileName, FileNamePlaceholder, LoadingHead, LoadingTail);
  }

  // ---------------------------------------------------------------------------
  // Panel updates
  // ---------------------------------------------------------------------------

  /** `showLoading(panel, fileName)`. */
  method ShowLoading(panel: Panel, fileName: string)
    modifies panel
    ensures panel.html == LoadingHtml(fileName) && panel.disposed == old(panel.disposed)
  {
    panel.html := LoadingHtml(fileName);
  }

  /** The page `updateContent` shows: the HTML if it is non-empty, else the generic error page. */
  function ContentOrError(html: string): (page: string)
    ensures html != "" ==> page == html
    ensures html == "" ==> page == ErrorHtml("Failed to generate preview", None)
  {
    OrElse(Some(html), ErrorHtml("Failed to generate preview", None))
  }

  /** `updateContent(panel, html)`: nothing happens without a panel. */
  method UpdateContent(panel: Panel?, html: string)
    modifies panel
    ensures panel != null ==> panel.html == ContentOrError(html) && panel.disposed == old(panel.disposed)
  {
    if panel != null {
      panel.html := ContentOrError(html);
    }
  }
}

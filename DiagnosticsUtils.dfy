/**
 * Conversion of parsed diagnostics to editor diagnostics, and their publication
 * in a diagnostic collection keyed by document URI.
 */
module DiagnosticsUtils {
  import opened JsText
  import opened Constants
  import opened DiagnosticParser

  /** vscode.Range: start line and character, end line and character. */
  datatype Range = Range(startLine: nat, startCharacter: nat, endLine: nat, endCharacter: nat)

  /** vscode.Diagnostic: a range, a message and a severity. */
  datatype VsDiagnostic = VsDiagnostic(range: Range, message: string, severity: Severity)

  /** The editor diagnostic of one record: the whole of its line, from column 0 to MAX_LINE_LENGTH. */
  function ToVsDiagnostic(d: Diagnostic): VsDiagnostic {
    VsDiagnostic(Range(d.line, 0, d.line, MaxLineLength), d.message, d.severity)
  }

  /** The record an editor diagnostic was made from. */
  function FromVsDiagnostic(v: VsDiagnostic): Diagnostic {
    Diagnostic(v.range.startLine, v.severity, v.message)
  }

  /**
   * `createVSCodeDiagnostics(diagnostics)`: `None` stands for a value that is not
   * an array. The result has one entry per record, in order, each a single-line
   * range with the record's message and severity.
   */
  function CreateVsDiagnostics(diagnostics: Option<seq<Diagnostic>>): (r: seq<VsDiagnostic>)
    ensures diagnostics.None? ==> r == []
    ensures diagnostics.Some? ==> |r| == |diagnostics.value|
    ensures diagnostics.Some? ==> forall i :: 0 <= i < |r| ==>
      && r[i].range.startLine == r[i].range.endLine == diagnostics.value[i].line
      && r[i].range.startCharacter == 0 && r[i].range.endCharacter == MaxLineLength
      && r[i].message == diagnostics.value[i].message
      && r[i].severity == diagnostics.value[i].severity
  {
    if diagnostics.None? then []
    else
      var ds := diagnostics.value;
      seq(|ds|, i requires 0 <= i < |ds| => ToVsDiagnostic(ds[i]))
  }

  function FromVsDiagnostics(vs: seq<VsDiagnostic>): seq<Diagnostic> {
    seq(|vs|, i requires 0 <= i < |vs| => FromVsDiagnostic(vs[i]))
  }

  /** Nothing is lost in the conversion: the records can be read back from their editor diagnostics. */
  lemma ConversionRoundTrip(ds: seq<Diagnostic>)
    ensures FromVsDiagnostics(CreateVsDiagnostics(Some(ds))) == ds
  {
    var back := FromVsDiagnostics(CreateVsDiagnostics(Some(ds)));
    forall i | 0 <= i < |ds| ensures back[i] == ds[i] {
      assert CreateVsDiagnostics(Some(ds))[i] == ToVsDiagnostic(ds[i]);
    }
  }

  /** The conversion of a concatenation is the concatenation of the conversions. */
  lemma ConversionAppend(a: seq<Diagnostic>, b: seq<Diagnostic>)
    ensures CreateVsDiagnostics(Some(a + b)) == CreateVsDiagnostics(Some(a)) + CreateVsDiagnostics(Some(b))
  {
    var l := CreateVsDiagnostics(Some(a + b));
    var r := CreateVsDiagnostics(Some(a)) + CreateVsDiagnostics(Some(b));
    forall i | 0 <= i < |l| ensures l[i] == r[i] {
      if i < |a| {
        assert (a + b)[i] == a[i];
      } else {
        assert (a + b)[i] == b[i - |a|];
      }
    }
  }

  /**
   * The collection after `updateDiagnostics(collection, uri, diagnostics)`: the
   * entry of `uri` is replaced by the converted records when there are any and
   * removed otherwise; the entries of other URIs stay as they were.
   */
  function Published(entries: map<string, seq<VsDiagnostic>>, uri: string, diagnostics: Option<seq<Diagnostic>>): (r: map<string, seq<VsDiagnostic>>)
    ensures uri in r <==> diagnostics.Some? && diagnostics.value != []
    ensures uri in r ==> r[uri] == CreateVsDiagnostics(diagnostics)
    ensures forall u :: u != uri ==> (u in r <==> u in entries)
    ensures forall u :: u != uri && u in r ==> r[u] == entries[u]
  {
    var cleared := entries - {uri};
    if diagnostics.Some? && |diagnostics.value| > 0 then cleared[uri := CreateVsDiagnostics(diagnostics)] else cleared
  }

  /** Publishing replaces rather than appends: only the last publication for a URI counts. */
  lemma PublishReplaces(entries: map<string, seq<VsDiagnostic>>, uri: string, first: Option<seq<Diagnostic>>, second: Option<seq<Diagnostic>>)
    ensures Published(Published(entries, uri, first), uri, second) == Published(entries, uri, second)
  {
  }

  /** Publications for different URIs do not interfere. */
  lemma PublishCommutes(entries: map<string, seq<VsDiagnostic>>, u: string, du: Option<seq<Diagnostic>>, v: string, dv: Option<seq<Diagnostic>>)
    requires u != v
    ensures Published(Published(entries, u, du), v, dv) == Published(Published(entries, v, dv), u, du)
  {
    var l := Published(Published(entries, u, du), v, dv);
    var r := Published(Published(entries, v, dv), u, du);
    assert l.Keys == r.Keys;
    forall k | k in l ensures l[k] == r[k] {
      if k != u && k != v {
        assert l[k] == entries[k] == r[k];
      }
    }
  }

  /** The diagnostics shown for each document URI. */
  class DiagnosticCollection {
    var entries: map<string, seq<VsDiagnostic>>
    var disposed: bool

    constructor()
      ensures entries == map[] && !disposed
    {
      entries := map[];
      disposed := false;
    }

    method Delete(uri: string)
      modifies this
      ensures entries == old(entries) - {uri} && disposed == old(disposed)
    {
      entries := entries - {uri};
    }

    method Set(uri: string, diagnostics: seq<VsDiagnostic>)
      modifies this
      ensures entries == old(entries)[uri := diagnostics] && disposed == old(disposed)
    {
      entries := entries[uri := diagnostics];
    }

    method Clear()
      modifies this
      ensures entries == map[] && disposed == old(disposed)
    {
      entries := map[];
    }

    /** `dispose()`: the collection is released, and, as `dispose` also clears it, emptied. */
    method Dispose()
      modifies this
      ensures disposed && entries == map[]
    {
      entries := map[];
      disposed := true;
    }
  }

  /** `updateDiagnostics(collection, uri, diagnostics)`: delete, then set when there is something to show. */
  method UpdateDiagnostics(collection: DiagnosticCollection?, uri: string, diagnostics: Option<seq<Diagnostic>>)
    modifies collection
    ensures collection != null ==> collection.entries == Published(old(collection.entries), uri, diagnostics)
    ensures collection != null ==> collection.disposed == old(collection.disposed)
  {
    if collection == null {
      return;
    }
    collection.Delete(uri);
    if diagnostics.Some? && |diagnostics.value| > 0 {
      var converted := CreateVsDiagnostics(diagnostics);
      collection.Set(uri, converted);
    }
  }
}

/**
 * The diagnostic parser of the processing service: xml2rfc's stderr text becomes
 * an ordered sequence of (line, severity, message) records.
 *
 * Each line is tried against two regular expressions, in this order:
 *   pattern A  ^(.+?)\((\d+)\): (Warning|Error): (.+)$
 *   pattern B  ^(.+?): Line (\d+): (.+)$
 * Both are anchored and use `.`, which never matches a line terminator, so a line
 * holding `\r` (a CRLF-terminated line) matches neither. For a fixed end `k` of the
 * lazy source group the remainder of a match is unique: the greedy digit group can
 * only succeed at its maximal length (it must be followed by `)` or `:`), and the
 * keywords `Warning` and `Error` differ in their first letter. Backtracking tries
 * `k = 1, 2, ...` in turn, so the match JavaScript reports is the one at the
 * least `k` for which the remainder matches.
 */
module DiagnosticParser {
  import opened JsText

  /** vscode.DiagnosticSeverity, restricted to the two values the parser produces. */
  datatype Severity = Error | Warning

  /** A parsed diagnostic: a zero-based line, a severity and a trimmed message. */
  datatype Diagnostic = Diagnostic(line: nat, severity: Severity, message: string)

  datatype Pattern =
    | Validation  // pattern A
    | XmlError    // pattern B

  /** The groups a match captures: the line digits, the keyword (pattern A only) and the message. */
  datatype Captures = Captures(digits: string, keyword: Option<string>, message: string)

  predicate NoLineTerminator(s: string) {
    forall i :: 0 <= i < |s| ==> !IsLineTerminator(s[i])
  }

  /** The length of the run of ASCII digits in `s` that starts at index `i`. */
  function DigitRun(s: string, i: nat): (n: nat)
    requires i <= |s|
    decreases |s| - i
    ensures i + n <= |s|
    ensures forall j :: i <= j < i + n ==> IsDigit(s[j])
    ensures i + n < |s| ==> !IsDigit(s[i + n])
  {
    if i < |s| && IsDigit(s[i]) then 1 + DigitRun(s, i + 1) else 0
  }

  /** With the lazy source group `s[..k]`, the rest of pattern `p` matches `s[k..]`. */
  predicate SplitsAt(p: Pattern, s: string, k: nat) {
    && 1 <= k < |s|
    && match p
       case Validation =>
         && s[k] == '('
         && var d := DigitRun(s, k + 1);
         && d >= 1
         && OccursAt(s, "): ", k + 1 + d)
         && var q := k + 4 + d;
         || (OccursAt(s, "Warning: ", q) && q + 9 < |s|)
         || (OccursAt(s, "Error: ", q) && q + 7 < |s|)
       case XmlError =>
         && OccursAt(s, ": Line ", k)
         && var d := DigitRun(s, k + 7);
         && d >= 1
         && OccursAt(s, ": ", k + 7 + d)
         && k + 9 + d < |s|
  }

  /** The groups captured by the match whose source group is `s[..k]`. */
  function CapturesAt(p: Pattern, s: string, k: nat): (c: Captures)
    requires SplitsAt(p, s, k)
    ensures |c.digits| >= 1 && AllDigits(c.digits)
    ensures c.message != []
    ensures p == Validation ==> c.keyword == Some("Warning") || c.keyword == Some("Error")
    ensures p == XmlError ==> c.keyword == None
  {
    match p
    case Validation =>
      var d := DigitRun(s, k + 1);
      var q := k + 4 + d;
      assert OccursAt(s, "Warning: ", q) ==> s[q] == "Warning: "[0] == 'W';
      assert OccursAt(s, "Error: ", q) ==> s[q] == "Error: "[0] == 'E';
      if OccursAt(s, "Warning: ", q) then Captures(s[k + 1..k + 1 + d], Some("Warning"), s[q + 9..])
      else Captures(s[k + 1..k + 1 + d], Some("Error"), s[q + 7..])
    case XmlError =>
      var d := DigitRun(s, k + 7);
      Captures(s[k + 7..k + 7 + d], None, s[k + 9 + d..])
  }

  /** The least split point at or after `from`: how the lazy group `(.+?)` backtracks. */
  function FirstSplit(p: Pattern, s: string, from: nat): (r: Option<nat>)
    decreases |s| - from
    ensures r.Some? ==> from <= r.value && SplitsAt(p, s, r.value)
    ensures r.Some? ==> forall j :: from <= j < r.value ==> !SplitsAt(p, s, j)
    ensures r.None? ==> forall j :: from <= j ==> !SplitsAt(p, s, j)
  {
    if from >= |s| then None
    else if SplitsAt(p, s, from) then Some(from)
    else FirstSplit(p, s, from + 1)
  }

  /** `line.match(pattern)`: the captures of the match at the least split point, if any. */
  function Match(p: Pattern, line: string): (m: Option<Captures>)
    ensures m.Some? ==> |m.value.digits| >= 1 && AllDigits(m.value.digits)
  {
    if !NoLineTerminator(line) then None
    else
      match FirstSplit(p, line, 1)
      case None => None
      case Some(k) => Some(CapturesAt(p, line, k))
  }

  /** `Math.max(0, parseInt(lineNum) - 1)`: the 1-based number as a 0-based line, with line 0 for `0`. */
  function ZeroBasedLine(digits: string): (n: nat)
    requires AllDigits(digits)
    ensures DigitsValue(digits) >= 1 ==> n + 1 == DigitsValue(digits)
    ensures DigitsValue(digits) == 0 ==> n == 0
  {
    if DigitsValue(digits) >= 1 then DigitsValue(digits) - 1 else 0
  }

  /** The record one stderr line contributes, if any. */
  function ParseLine(line: string): Option<Diagnostic> {
    if IsBlank(line) then None
    else
      match Match(Validation, line)
      case Some(m) =>
        Some(Diagnostic(ZeroBasedLine(m.digits), if m.keyword == Some("Warning") then Warning else Error, Trim(m.message)))
      case None =>
        match Match(XmlError, line)
        case Some(m) => Some(Diagnostic(ZeroBasedLine(m.digits), Error, Trim(m.message)))
        case None => None
  }

  function OptionToSeq<T>(o: Option<T>): seq<T> {
    if o.Some? then [o.value] else []
  }

  /** The records of a sequence of lines, in line order. */
  function ParseLines(lines: seq<string>): seq<Diagnostic> {
    if lines == [] then []
    else ParseLines(lines[..|lines| - 1]) + OptionToSeq(ParseLine(lines[|lines| - 1]))
  }

  /**
   * The specification of `_parseDiagnostics`: the records of the `\n`-separated
   * lines, which they never outnumber.
   */
  function Parse(stderr: string): (ds: seq<Diagnostic>)
    ensures |ds| <= |Split(stderr, '\n')|
  {
    if stderr == "" then []
    else
      ParseLinesBounded(Split(stderr, '\n'));
      ParseLines(Split(stderr, '\n'))
  }

  /** Every record `_parseDiagnostics` returns comes from one line of `stderr`. */
  lemma ParseOrigin(stderr: string, d: Diagnostic)
    requires d in Parse(stderr)
    ensures exists i :: 0 <= i < |Split(stderr, '\n')| && ParseLine(Split(stderr, '\n')[i]) == Some(d)
  {
    var lines := Split(stderr, '\n');
    assert d in ParseLines(lines);
    var j :| 0 <= j < |ParseLines(lines)| && ParseLines(lines)[j] == d;
    ParseLinesOrigin(lines, j);
  }

  /** `_parseDiagnostics(stderr)`: one pass over the lines, pushing a record per matching line. */
  method ParseDiagnostics(stderr: string) returns (diagnostics: seq<Diagnostic>)
    ensures diagnostics == Parse(stderr)
  {
    if stderr == "" {
      return [];
    }
    var lines := Split(stderr, '\n');
    diagnostics := [];
    for i := 0 to |lines|
      invariant diagnostics == ParseLines(lines[..i])
    {
      var line := lines[i];
      ParseLinesPrefix(lines, i);
      if IsBlank(line) {
        continue;
      }
      var m := Match(Validation, line);
      if m.Some? {
        var severity := if m.value.keyword == Some("Warning") then Warning else Error;
        diagnostics := diagnostics + [Diagnostic(ZeroBasedLine(m.value.digits), severity, Trim(m.value.message))];
        continue;
      }
      m := Match(XmlError, line);
      if m.Some? {
        diagnostics := diagnostics + [Diagnostic(ZeroBasedLine(m.value.digits), Error, Trim(m.value.message))];
      }
    }
    assert lines[..|lines|] == lines;
  }

  /** Extending the parsed prefix by one line appends that line's record. */
  lemma ParseLinesPrefix(lines: seq<string>, i: nat)
    requires i < |lines|
    ensures ParseLines(lines[..i + 1]) == ParseLines(lines[..i]) + OptionToSeq(ParseLine(lines[i]))
  {
    assert lines[..i + 1][..i] == lines[..i];
  }

  // ---------------------------------------------------------------------------
  // Properties
  // ---------------------------------------------------------------------------

  /** Empty stderr (also what `err.stderr || ""` gives for undefined) yields no records. */
  lemma ParseEmpty()
    ensures Parse("") == []
  {
  }

  /** Parsing is a homomorphism over line sequences: output order follows input order. */
  lemma {:induction false} ParseLinesAppend(a: seq<string>, b: seq<string>)
    ensures ParseLines(a + b) == ParseLines(a) + ParseLines(b)
    decreases |b|
  {
    if b == [] {
      assert a + b == a;
    } else {
      var b' := b[..|b| - 1];
      assert (a + b)[..|a + b| - 1] == a + b';
      assert (a + b)[|a + b| - 1] == b[|b| - 1];
      ParseLinesAppend(a, b');
    }
  }

  /** A single line contributes its own record or nothing. */
  lemma ParseLinesSingle(line: string)
    ensures ParseLines([line]) == OptionToSeq(ParseLine(line))
  {
    assert [line][..0] == [];
  }

  /** At most one record per line. */
  lemma {:induction false} ParseLinesBounded(lines: seq<string>)
    ensures |ParseLines(lines)| <= |lines|
  {
    if lines != [] {
      ParseLinesBounded(lines[..|lines| - 1]);
    }
  }


  /** Every record comes from some line of the input. */
  lemma {:induction false} ParseLinesOrigin(lines: seq<string>, j: nat)
    requires j < |ParseLines(lines)|
    ensures exists i :: 0 <= i < |lines| && ParseLine(lines[i]) == Some(ParseLines(lines)[j])
  {
    var init := lines[..|lines| - 1];
    if j < |ParseLines(init)| {
      ParseLinesOrigin(init, j);
      var i :| 0 <= i < |init| && ParseLine(init[i]) == Some(ParseLines(init)[j]);
      assert lines[i] == init[i];
    } else {
      assert ParseLine(lines[|lines| - 1]) == Some(ParseLines(lines)[j]);
    }
  }

  /**
   * A line yields a record exactly when it is not blank and one of the two
   * patterns matches it; a line that only the second pattern matches gives an error.
   */
  lemma ParseLineYields(line: string)
    ensures ParseLine(line).Some? <==> !IsBlank(line) && (Match(Validation, line).Some? || Match(XmlError, line).Some?)
    ensures ParseLine(line).Some? && Match(Validation, line).None? ==> ParseLine(line).value.severity == Error
  {
  }

  /** Blank lines, and lines matching neither pattern, contribute nothing. */
  lemma UnmatchedLineDropped(line: string)
    requires IsBlank(line) || (Match(Validation, line).None? && Match(XmlError, line).None?)
    ensures ParseLines([line]) == []
  {
    ParseLinesSingle(line);
  }

  /** Non-empty stderr without a newline is a single line. */
  lemma ParseOneLine(stderr: string)
    requires stderr != "" && '\n' !in stderr
    ensures Parse(stderr) == OptionToSeq(ParseLine(stderr))
  {
    SplitWithoutSeparator(stderr, '\n');
    ParseLinesSingle(stderr);
  }

  /** Output that is one line without terminators gives the diagnostic of that line, if any. */
  lemma ParseSingleLine(stderr: string, d: Diagnostic)
    requires stderr != "" && NoLineTerminator(stderr) && ParseLine(stderr) == Some(d)
    ensures Parse(stderr) == [d]
  {
    assert '\n' !in stderr by {
      forall i | 0 <= i < |stderr| ensures stderr[i] != '\n' {
        assert !IsLineTerminator(stderr[i]);
      }
    }
    ParseOneLine(stderr);
  }

  /** A line holding a line terminator other than `\n` (such as a CRLF line) is never matched. */
  lemma LineTerminatorDropped(line: string, i: nat)
    requires i < |line| && IsLineTerminator(line[i])
    ensures ParseLine(line) == None
  {
    assert !NoLineTerminator(line);
  }

  /** Pattern A is tried first: a line it matches gets its record, and pattern B is not consulted. */
  lemma ValidationTakesPrecedence(line: string)
    requires !IsBlank(line) && Match(Validation, line).Some?
    ensures var m := Match(Validation, line).value;
      ParseLine(line) == Some(Diagnostic(ZeroBasedLine(m.digits), if m.keyword == Some("Warning") then Warning else Error, Trim(m.message)))
  {
  }

  /** The severity is Warning exactly when pattern A matched with the keyword `Warning`. */
  lemma SeverityIsWarningIff(line: string, d: Diagnostic)
    requires ParseLine(line) == Some(d)
    ensures d.severity == Warning <==> Match(Validation, line).Some? && Match(Validation, line).value.keyword == Some("Warning")
  {
  }

  /** The record's line is the captured 1-based number minus one, never below zero. */
  lemma LineIsCapturedNumberMinusOne(line: string, d: Diagnostic)
    requires ParseLine(line) == Some(d)
    ensures var m := if Match(Validation, line).Some? then Match(Validation, line) else Match(XmlError, line);
      m.Some? && d.line == (if DigitsValue(m.value.digits) >= 1 then DigitsValue(m.value.digits) - 1 else 0)
      && d.message == Trim(m.value.message)
  {
  }

  /** The match is the one at the least split point, as the lazy group demands. */
  lemma MatchAtLeastSplit(p: Pattern, line: string, k: nat)
    requires NoLineTerminator(line) && SplitsAt(p, line, k)
    requires forall j :: 1 <= j < k ==> !SplitsAt(p, line, j)
    ensures Match(p, line) == Some(CapturesAt(p, line, k))
  {
    var r := FirstSplit(p, line, 1);
    assert r.Some? && r.value == k;
  }

  // ---------------------------------------------------------------------------
  // The two line shapes, worked through
  // ---------------------------------------------------------------------------

  lemma TwelveIsLineEleven()
    ensures ZeroBasedLine("12") == 11
  {
    assert "12"[..1] == "1";
    assert "1"[..0] == "";
    assert DigitsValue("1") == 1;
  }

  lemma NotBlank(s: string)
    requires s != [] && !IsJsSpace(s[0])
    ensures !IsBlank(s)
  {
  }

  lemma NoLineTerminatorConcat(a: string, b: string)
    requires NoLineTerminator(a) && NoLineTerminator(b)
    ensures NoLineTerminator(a + b)
  {
    forall i | 0 <= i < |a + b| ensures !IsLineTerminator((a + b)[i]) {
      if i >= |a| { assert (a + b)[i] == b[i - |a|]; }
    }
  }

  /** The source group of the pattern-A example line cannot end before the `(`: `doc.xml` holds none. */
  lemma ValidationExampleNoEarlierSplit(line: string)
    requires line == "doc.xml(12): Warning: " + "undefined reference"
    ensures forall j :: 1 <= j < 7 ==> !SplitsAt(Validation, line, j)
  {
    forall j | 1 <= j < 7 ensures !SplitsAt(Validation, line, j) {
      assert line[..7] == "doc.xml";
      assert line[j] == line[..7][j];
    }
  }

  lemma ValidationExampleDigits(line: string)
    requires line == "doc.xml(12): Warning: " + "undefined reference"
    ensures DigitRun(line, 8) == 2
  {
    assert line[8] == '1' && line[9] == '2' && line[10] == ')';
    assert DigitRun(line, 10) == 0;
  }

  /** The split point of the pattern-A example line is the `(` after `doc.xml`. */
  lemma ValidationExampleSplit(line: string)
    requires line == "doc.xml(12): Warning: " + "undefined reference"
    ensures SplitsAt(Validation, line, 7) && forall j :: 1 <= j < 7 ==> !SplitsAt(Validation, line, j)
    ensures CapturesAt(Validation, line, 7) == Captures("12", Some("Warning"), "undefined reference")
  {
    ValidationExampleNoEarlierSplit(line);
    ValidationExampleDigits(line);
    assert line[7] == '(';
    assert line[10..13] == "): ";
    assert line[13..22] == "Warning: ";
    assert line[8..10] == "12";
    assert line[22..] == "undefined reference";
  }

  lemma ValidationExampleMatch(line: string)
    requires line == "doc.xml(12): Warning: " + "undefined reference"
    ensures Match(Validation, line) == Some(Captures("12", Some("Warning"), "undefined reference"))
  {
    ValidationExampleClean(line);
    ValidationExampleSplit(line);
    MatchAtLeastSplit(Validation, line, 7);
  }

  lemma ValidationExampleRecord(line: string)
    requires line == "doc.xml(12): Warning: " + "undefined reference"
    ensures ParseLine(line) == Some(Diagnostic(ZeroBasedLine("12"), Warning, Trim("undefined reference")))
  {
    assert line[0] == 'd';
    NotBlank(line);
    ValidationExampleMatch(line);
    ValidationTakesPrecedence(line);
  }

  lemma ValidationExampleFields()
    ensures Diagnostic(ZeroBasedLine("12"), Warning, Trim("undefined reference")) == Diagnostic(11, Warning, "undefined reference")
  {
    TwelveIsLineEleven();
    TrimOfTrimmed("undefined reference");
  }

  lemma ValidationExampleClean(line: string)
    requires line == "doc.xml(12): Warning: " + "undefined reference"
    ensures line != "" && NoLineTerminator(line)
  {
    NoLineTerminatorConcat("doc.xml(12): Warning: ", "undefined reference");
  }

  lemma ValidationExampleLine(line: string)
    requires line == "doc.xml(12): Warning: " + "undefined reference"
    ensures ParseLine(line) == Some(Diagnostic(11, Warning, "undefined reference"))
  {
    ValidationExampleRecord(line);
    ValidationExampleFields();
  }

  /** `doc.xml(12): Warning: undefined reference` gives line 11, Warning, `undefined reference`. */
  lemma ValidationLineExample(stderr: string)
    requires stderr == "doc.xml(12): Warning: " + "undefined reference"
    ensures Parse(stderr) == [Diagnostic(11, Warning, "undefined reference")]
  {
    ValidationExampleLine(stderr);
    ValidationExampleClean(stderr);
    ParseSingleLine(stderr, Diagnostic(11, Warning, "undefined reference"));
  }

  /** Pattern A needs a `(` after the source group. */
  lemma ValidationNeedsParen(line: string)
    requires '(' !in line
    ensures Match(Validation, line) == None
  {
  }

  lemma XmlErrorExampleNoEarlierSplit(line: string)
    requires line == "doc.xml: Line 5: " + "not well-formed"
    ensures forall j :: 1 <= j < 7 ==> !SplitsAt(XmlError, line, j)
  {
    forall j | 1 <= j < 7 ensures !SplitsAt(XmlError, line, j) {
      assert line[..7] == "doc.xml";
      assert line[j] == line[..7][j];
    }
  }

  lemma XmlErrorExampleDigits(line: string)
    requires line == "doc.xml: Line 5: " + "not well-formed"
    ensures DigitRun(line, 14) == 1
  {
    assert line[14] == '5' && line[15] == ':';
    assert DigitRun(line, 15) == 0;
  }

  /** The split point of the pattern-B example line is the `:` after `doc.xml`. */
  lemma XmlErrorExampleSplit(line: string)
    requires line == "doc.xml: Line 5: " + "not well-formed"
    ensures SplitsAt(XmlError, line, 7) && forall j :: 1 <= j < 7 ==> !SplitsAt(XmlError, line, j)
    ensures CapturesAt(XmlError, line, 7) == Captures("5", None, "not well-formed")
  {
    XmlErrorExampleNoEarlierSplit(line);
    XmlErrorExampleDigits(line);
    assert line[7..14] == ": Line ";
    assert line[15..17] == ": ";
    assert line[14..15] == "5";
    assert line[17..] == "not well-formed";
  }

  /** Pattern A cannot match the pattern-B example line: it has no `(`. */
  lemma XmlErrorExampleNoParen(line: string)
    requires line == "doc.xml: Line 5: " + "not well-formed"
    ensures '(' !in line
  {
    assert '(' !in "doc.xml: Line 5: " && '(' !in "not well-formed";
  }

  lemma XmlErrorExampleRecord(line: string)
    requires line == "doc.xml: Line 5: " + "not well-formed"
    ensures ParseLine(line) == Some(Diagnostic(ZeroBasedLine("5"), Error, Trim("not well-formed")))
  {
    assert line[0] == 'd';
    NotBlank(line);
    XmlErrorExampleClean(line);
    XmlErrorExampleNoParen(line);
    ValidationNeedsParen(line);
    XmlErrorExampleSplit(line);
    MatchAtLeastSplit(XmlError, line, 7);
  }

  lemma XmlErrorExampleFields()
    ensures Diagnostic(ZeroBasedLine("5"), Error, Trim("not well-formed")) == Diagnostic(4, Error, "not well-formed")
  {
    assert "5"[..0] == "";
    TrimOfTrimmed("not well-formed");
  }

  lemma XmlErrorExampleClean(line: string)
    requires line == "doc.xml: Line 5: " + "not well-formed"
    ensures line != "" && NoLineTerminator(line)
  {
    NoLineTerminatorConcat("doc.xml: Line 5: ", "not well-formed");
  }

  lemma XmlErrorExampleLine(line: string)
    requires line == "doc.xml: Line 5: " + "not well-formed"
    ensures ParseLine(line) == Some(Diagnostic(4, Error, "not well-formed"))
  {
    XmlErrorExampleRecord(line);
    XmlErrorExampleFields();
  }

  /** `doc.xml: Line 5: not well-formed` gives line 4, Error, `not well-formed`. */
  lemma XmlErrorLineExample(stderr: string)
    requires stderr == "doc.xml: Line 5: " + "not well-formed"
    ensures Parse(stderr) == [Diagnostic(4, Error, "not well-formed")]
  {
    XmlErrorExampleLine(stderr);
    XmlErrorExampleClean(stderr);
    ParseSingleLine(stderr, Diagnostic(4, Error, "not well-formed"));
  }
}

/**
 The text of the managed env file (src/http.rs): lines, assignments, and values
 in quotes, each with its inverse.
 */
module EnvText {
  import opened Basics
  import opened Text

  // ---- String operations of the standard library ---------------------------------------------

  /** `str::replace`: leftmost matches, none overlapping, replaced in one pass. */
  function ReplaceAll(s: string, from: string, to: string): string
    requires from != ""
    decreases |s|
  {
    if |s| < |from| then s
    else if from <= s then to + ReplaceAll(s[|from|..], from, to)
    else [s[0]] + ReplaceAll(s[1..], from, to)
  }

  /** `str::lines`: split after each line feed, drop it and a carriage return before it. */
  function Lines(s: string): seq<string>
    decreases |s|
  {
    if s == "" then []
    else
      var i := Find(s, '\n');
      if i == |s| then [s] else [StripCr(s[..i])] + Lines(s[i + 1..])
  }

  predicate OneLine(s: string) {
    '\n' !in s
  }

  // ---- Values --------------------------------------------------------------------------------

  /** The source counts bytes and looks at the first and last byte, which are quotes exactly when the
      first and last character are. */
  function ParseEnvValue(raw: string): string {
    if |raw| >= 2 && ((raw[0] == '"' && raw[|raw| - 1] == '"') || (raw[0] == '\'' && raw[|raw| - 1] == '\'')) then
      ReplaceAll(ReplaceAll(raw[1..|raw| - 1], "\\\"", "\""), "\\\\", "\\")
    else
      raw
  }

  predicate NeedsQuotes(value: string) {
    exists i :: 0 <= i < |value| && (IsWhitespace(value[i]) || value[i] in "#\"'")
  }

  function FormatEnvValue(value: string): string {
    if value == "" then ""
    else if !NeedsQuotes(value) then value
    else "\"" + ReplaceAll(ReplaceAll(value, "\\", "\\\\"), "\"", "\\\"") + "\""
  }

  lemma {:induction false} UnquoteQuotes(v: string)
    ensures ReplaceAll(ReplaceAll(v, "\"", "\\\""), "\\\"", "\"") == v
    ensures v != "" ==> ReplaceAll(v, "\"", "\\\"")[..1] == [if v[0] == '"' then '\\' else v[0]]
    decreases |v|
  {
    if v != "" {
      UnquoteQuotes(v[1..]);
      var rest := ReplaceAll(v[1..], "\"", "\\\"");
      var all := ReplaceAll(v, "\"", "\\\"");
      if v[0] == '"' {
        assert all == "\\\"" + rest;
        assert all[2..] == rest;
      } else {
        assert all == [v[0]] + rest;
        assert all[1..] == rest;
        assert !("\\\"" <= all);
      }
    }
  }

  lemma {:induction false} UnescapeBackslashes(v: string)
    ensures ReplaceAll(ReplaceAll(v, "\\", "\\\\"), "\\\\", "\\") == v
    decreases |v|
  {
    if v != "" {
      UnescapeBackslashes(v[1..]);
      var rest := ReplaceAll(v[1..], "\\", "\\\\");
      var all := ReplaceAll(v, "\\", "\\\\");
      if v[0] == '\\' {
        assert all == "\\\\" + rest;
        assert all[2..] == rest;
      } else {
        assert all == [v[0]] + rest;
        assert all[1..] == rest;
      }
    }
  }

  /** Two unescaping passes undo two escaping passes, for every string. */
  lemma ParseInvertsFormat(value: string)
    ensures ParseEnvValue(FormatEnvValue(value)) == value
  {
    if value != "" && NeedsQuotes(value) {
      var escaped := ReplaceAll(value, "\\", "\\\\");
      var body := ReplaceAll(escaped, "\"", "\\\"");
      var raw := "\"" + body + "\"";
      assert raw[1..|raw| - 1] == body;
      UnquoteQuotes(escaped);
      UnescapeBackslashes(value);
    }
  }

  lemma {:induction false} ReplaceKeepsOneLine(s: string, from: string, to: string)
    requires from != "" && OneLine(s) && OneLine(to)
    ensures OneLine(ReplaceAll(s, from, to))
    decreases |s|
  {
    if |s| < |from| {
    } else if from <= s {
      ReplaceKeepsOneLine(s[|from|..], from, to);
    } else {
      ReplaceKeepsOneLine(s[1..], from, to);
    }
  }

  lemma ParseValueOneLine(raw: string)
    requires OneLine(raw)
    ensures OneLine(ParseEnvValue(raw))
  {
    if ParseEnvValue(raw) != raw {
      var body := raw[1..|raw| - 1];
      ReplaceKeepsOneLine(body, "\\\"", "\"");
      ReplaceKeepsOneLine(ReplaceAll(body, "\\\"", "\""), "\\\\", "\\");
    }
  }

  lemma FormatValueShape(value: string)
    ensures IsTrimmed(FormatEnvValue(value))
    ensures OneLine(value) ==> OneLine(FormatEnvValue(value))
  {
    AsciiWhitespace('"');
    if OneLine(value) && value != "" && NeedsQuotes(value) {
      ReplaceKeepsOneLine(value, "\\", "\\\\");
      ReplaceKeepsOneLine(ReplaceAll(value, "\\", "\\\\"), "\"", "\\\"");
    }
  }

  // ---- Lines ---------------------------------------------------------------------------------

  /** One line of the file without the white space around it: an assignment, or `None` for blank lines,
      comments and lines without one. */
  function ParseTrimmedLine(line: string): Option<(string, string)> {
    if line == "" || line[0] == '#' then None
    else
      var i := Find(line, '=');
      if i == |line| then None
      else
        var key := Trim(line[..i]);
        if key == "" then None else Some((key, ParseEnvValue(Trim(line[i + 1..]))))
  }

  function ParseLine(raw: string): Option<(string, string)> {
    ParseTrimmedLine(Trim(raw))
  }

  /** The keys a file can hold: one trimmed, non-empty line without `=` that does not start a comment. */
  predicate IsWellFormedKey(key: string) {
    key != "" && IsTrimmed(key) && '=' !in key && OneLine(key) && key[0] != '#'
  }

  lemma TrimKeeps(s: string, c: char)
    requires c !in s
    ensures c !in Trim(s)
  {
    var from := TrimInfix(s);
    assert forall j :: 0 <= j < |Trim(s)| ==> Trim(s)[j] == s[from + j];
  }

  lemma KeyShape(line: string, i: nat)
    requires OneLine(line) && IsTrimmed(line) && i <= |line| && '=' !in line[..i]
    requires line != "" && line[0] != '#' && Trim(line[..i]) != ""
    ensures IsWellFormedKey(Trim(line[..i]))
  {
    var raw := line[..i];
    TrimIsTrimmed(raw);
    TrimKeeps(raw, '=');
    TrimKeeps(raw, '\n');
    assert raw != "" && raw[0] == line[0];
    assert TrimStart(raw) == raw;
  }

  lemma ParseLineShape(raw: string)
    requires OneLine(raw) && ParseLine(raw).Some?
    ensures IsWellFormedKey(ParseLine(raw).value.0) && OneLine(ParseLine(raw).value.1)
  {
    var line := Trim(raw);
    TrimKeeps(raw, '\n');
    TrimIsTrimmed(raw);
    var i := Find(line, '=');
    KeyShape(line, i);
    TrimKeeps(line[i + 1..], '\n');
    ParseValueOneLine(Trim(line[i + 1..]));
  }

  lemma TrimmedParse(line: string, i: nat)
    requires i < |line| && Find(line, '=') == i && line[0] != '#'
    requires IsTrimmed(line[..i]) && line[..i] != "" && IsTrimmed(line[i + 1..])
    ensures ParseTrimmedLine(line) == Some((line[..i], ParseEnvValue(line[i + 1..])))
  {
    TrimIsTrimmed(line[..i]);
    TrimIsTrimmed(line[i + 1..]);
  }

  function Assignment(key: string, value: string): string {
    key + "=" + FormatEnvValue(value)
  }

  lemma FindAfter(head: string, c: char, tail: string)
    requires c !in head
    ensures var s := head + [c] + tail;
            Find(s, c) == |head| && s[..|head|] == head && s[|head|] == c && s[|head| + 1..] == tail
  {
    var s := head + [c] + tail;
    assert s[|head|] == c;
    assert forall j :: 0 <= j < |head| ==> s[j] == head[j];
  }

  lemma AssignmentParses(key: string, value: string)
    requires IsWellFormedKey(key)
    ensures ParseLine(Assignment(key, value)) == Some((key, value))
  {
    var line, formatted := Assignment(key, value), FormatEnvValue(value);
    FormatValueShape(value);
    FindAfter(key, '=', formatted);
    assert line == key + ['='] + formatted;
    AsciiWhitespace('=');
    assert line[0] == key[0];
    assert line[|line| - 1] == if formatted == "" then '=' else formatted[|formatted| - 1];
    TrimIsTrimmed(line);
    TrimmedParse(line, |key|);
    ParseInvertsFormat(value);
  }

  lemma CommentIgnored(line: string)
    requires line == "" || (line[0] == '#' && !IsWhitespace(line[|line| - 1]))
    ensures ParseLine(line) == None
  {
    AsciiWhitespace('#');
    TrimIsTrimmed(line);
  }

  function Unlines(lines: seq<string>): string {
    if lines == [] then "" else lines[0] + "\n" + Unlines(lines[1..])
  }

  lemma {:induction false} UnlinesSnoc(lines: seq<string>, line: string)
    ensures Unlines(lines + [line]) == Unlines(lines) + (line + "\n")
  {
    if lines == [] {
      assert lines + [line] == [line] && [line][1..] == [];
      assert Unlines([line]) == line + "\n" + "";
    } else {
      assert (lines + [line])[1..] == lines[1..] + [line];
      UnlinesSnoc(lines[1..], line);
    }
  }

  predicate IsClean(line: string) {
    OneLine(line) && (line != "" ==> line[|line| - 1] != '\r')
  }

  lemma {:induction false} LinesInvertUnlines(lines: seq<string>)
    requires forall n :: 0 <= n < |lines| ==> IsClean(lines[n])
    ensures Lines(Unlines(lines)) == lines
  {
    if lines != [] {
      FindAfter(lines[0], '\n', Unlines(lines[1..]));
      assert Unlines(lines) == lines[0] + ['\n'] + Unlines(lines[1..]);
      LinesInvertUnlines(lines[1..]);
    }
  }

  lemma {:induction false} LinesAreLines(s: string)
    ensures forall n :: 0 <= n < |Lines(s)| ==> OneLine(Lines(s)[n])
    decreases |s|
  {
    if s != "" {
      var i := Find(s, '\n');
      if i < |s| {
        LinesAreLines(s[i + 1..]);
      }
    }
  }

  // ---- What a line is read as --------------------------------------------------------------------

  lemma {:induction false} ReplaceNothing(s: string, from: string, to: string)
    requires from != "" && from[0] !in s
    ensures ReplaceAll(s, from, to) == s
    decreases |s|
  {
    if |s| >= |from| {
      assert s[0] in s;
      ReplaceNothing(s[1..], from, to);
    }
  }

  /** Quotes of either kind are taken off alike, and without backslashes between them the text is kept; other texts are
      kept as they are. */
  lemma QuotedValues(body: string, raw: string)
    ensures ParseEnvValue("'" + body + "'") == ParseEnvValue("\"" + body + "\"")
    ensures '\\' !in body ==> ParseEnvValue("'" + body + "'") == body
    ensures raw == "" || raw[0] != raw[|raw| - 1] || raw[0] !in "\"'" || |raw| == 1 ==> ParseEnvValue(raw) == raw
  {
    var single, double := "'" + body + "'", "\"" + body + "\"";
    assert single[1..|single| - 1] == body && double[1..|double| - 1] == body;
    assert single[0] == single[|single| - 1] == '\'' && double[0] == double[|double| - 1] == '"';
    if '\\' !in body {
      ReplaceNothing(body, "\\\"", "\"");
      ReplaceNothing(body, "\\\\", "\\");
    }
  }

  lemma {:induction false} EscapingGrows(s: string, from: string, to: string)
    requires |from| == 1 && |to| >= 1
    ensures |ReplaceAll(s, from, to)| >= |s|
    decreases |s|
  {
    if s != "" {
      EscapingGrows(s[1..], from, to);
    }
  }

  /** A value is written as it is exactly when it holds no white space, no `#` and no quote of either kind. */
  lemma WrittenAsIs(value: string)
    ensures FormatEnvValue(value) == value <==>
              forall i :: 0 <= i < |value| ==> !IsWhitespace(value[i]) && value[i] != '#' && value[i] != '"' && value[i] != '\''
  {
    EscapingGrows(value, "\\", "\\\\");
    EscapingGrows(ReplaceAll(value, "\\", "\\\\"), "\"", "\\\"");
  }

  /** A line is an assignment at its first `=`: key and value without the white space around them, the value without its
      quotes. Comments and empty keys are not. */
  lemma AssignmentIs(key: string, value: string)
    requires '=' !in key
    ensures ParseLine(key + "=" + value)
         == if Trim(key) == "" || Trim(key)[0] == '#' then None else Some((Trim(key), ParseEnvValue(Trim(value))))
  {
    var start, end := TrimStart(key), TrimEnd(value);
    AsciiWhitespace('=');
    TrimAround(key, "=", value);
    TrimHalves(key);
    TrimHalves(value);
    var line := start + "=" + end;
    assert Trim(key + "=" + value) == line;
    var from := SkipForward(key, 0);
    assert forall j :: 0 <= j < |start| ==> start[j] == key[from + j];
    FindAfter(start, '=', end);
    assert line == start + ['='] + end;
    assert line[..|start|] == start && line[|start| + 1..] == end;
    StartsVisibly(key);
    if start == "" {
      assert Trim("") == "";
    } else {
      assert line[0] == start[0];
    }
  }

  lemma StartsVisibly(key: string)
    ensures Trim(key) == "" <==> TrimStart(key) == ""
    ensures Trim(key) != "" ==> Trim(key)[0] == TrimStart(key)[0]
  {
    BlankIffTrimEmpty(key);
  }

  /** A line without `=` is not an assignment. */
  lemma NoAssignment(line: string)
    requires '=' !in line
    ensures ParseLine(line) == None
  {
    TrimKeeps(line, '=');
  }

  lemma FirstLine(line: string, text: string)
    requires '\n' !in line
    ensures Lines(line + ['\n'] + text) == [StripCr(line)] + Lines(text)
  {
    FindAfter(line, '\n', text);
  }

  /** A text is split into its finished lines, each without a carriage return at its end, and what follows them. */
  lemma {:induction false} LinesAreRead(lines: seq<string>, rest: string)
    requires (forall i :: 0 <= i < |lines| ==> '\n' !in lines[i]) && '\n' !in rest
    ensures Lines(FinishedLines(lines) + rest) == WithoutCr(lines) + (if rest == "" then [] else [rest])
  {
    if lines == [] {
      assert FinishedLines(lines) + rest == rest && WithoutCr(lines) == [];
      assert rest != "" ==> Find(rest, '\n') == |rest|;
    } else {
      var text := FinishedLines(lines[1..]) + rest;
      LinesAreRead(lines[1..], rest);
      assert FinishedLines(lines) + rest == lines[0] + ['\n'] + text;
      FirstLine(lines[0], text);
      WithoutCrFirst(lines);
      Associates([StripCr(lines[0])], WithoutCr(lines[1..]), if rest == "" then [] else [rest]);
    }
  }
}

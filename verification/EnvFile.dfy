/**
 The managed env file (src/http.rs): rendering known fields and extra variables,
 and parsing the file back.
 */
module EnvFile {
  import opened Basics
  import opened Text
  import opened EnvText

  // ---- Parsing -------------------------------------------------------------------------------

  function InsertLine(values: map<string, string>, raw: string): map<string, string> {
    match ParseLine(raw)
    case None => values
    case Some((key, value)) => values[key := value]
  }

  function ParseLines(lines: seq<string>): map<string, string> {
    if lines == [] then map[]
    else InsertLine(ParseLines(lines[..|lines| - 1]), lines[|lines| - 1])
  }

  function ParseFile(content: string): map<string, string> {
    ParseLines(Lines(content))
  }

  method ParseEnvFileValues(content: string) returns (values: map<string, string>)
    ensures values == ParseFile(content)
  {
    values := map[];
    var lines := Lines(content);
    for n := 0 to |lines|
      invariant values == ParseLines(lines[..n])
    {
      assert lines[..n + 1][..n] == lines[..n];
      match ParseLine(lines[n])
      case None =>
      case Some((key, value)) =>
        values := values[key := value];
    }
    assert lines[..|lines|] == lines;
  }

  ghost predicate IsParsed(values: map<string, string>) {
    forall k :: k in values ==> IsWellFormedKey(k) && OneLine(values[k])
  }

  lemma {:induction false} ParseLinesParsed(lines: seq<string>)
    requires forall n :: 0 <= n < |lines| ==> OneLine(lines[n])
    ensures IsParsed(ParseLines(lines))
  {
    if lines != [] {
      var last := |lines| - 1;
      ParseLinesParsed(lines[..last]);
      if ParseLine(lines[last]).Some? {
        ParseLineShape(lines[last]);
      }
    }
  }

  /** Whatever the file's content, parsing yields well-formed keys and one-line values only. */
  lemma ParseFileParsed(content: string)
    ensures IsParsed(ParseFile(content))
  {
    LinesAreLines(content);
    ParseLinesParsed(Lines(content));
  }

  /** The last assignment of a key wins; other lines change nothing. */
  lemma LastLineWins(lines: seq<string>, raw: string)
    ensures ParseLines([]) == map[]
    ensures ParseLines(lines + [raw])
         == if ParseLine(raw).None? then ParseLines(lines) else ParseLines(lines)[ParseLine(raw).value.0 := ParseLine(raw).value.1]
  {
    assert (lines + [raw])[..|lines|] == lines;
  }

  // ---- Rendering -----------------------------------------------------------------------------

  /** A field of the setup page, with the English name of its group. */
  datatype FieldSpec = FieldSpec(key: string, groupKey: string, groupName: string)

  /** A line of a rendered file. */
  datatype Line = Comment(text: string) | Binding(key: string, value: string)

  function LineText(line: Line): string {
    match line
    case Comment(text) => text
    case Binding(key, value) => Assignment(key, value)
  }

  function Texts(lines: seq<Line>): (texts: seq<string>)
    ensures |texts| == |lines|
  {
    seq(|lines|, n requires 0 <= n < |lines| => LineText(lines[n]))
  }

  function Rendered(lines: seq<Line>): string {
    Unlines(Texts(lines))
  }

  function GetOrEmpty(values: map<string, string>, key: string): string {
    if key in values then values[key] else ""
  }

  function Heading(spec: FieldSpec, group: string): seq<Line> {
    if spec.groupKey == group then []
    else if group == "" then [Comment("# " + spec.groupName)]
    else [Comment(""), Comment("# " + spec.groupName)]
  }

  function LastGroup(fields: seq<FieldSpec>): string {
    if fields == [] then "" else fields[|fields| - 1].groupKey
  }

  function FieldLines(fields: seq<FieldSpec>, known: map<string, string>): seq<Line> {
    if fields == [] then []
    else
      var before, spec := fields[..|fields| - 1], fields[|fields| - 1];
      FieldLines(before, known) + Heading(spec, LastGroup(before)) + [Binding(spec.key, GetOrEmpty(known, spec.key))]
  }

  function ExtraLines(order: seq<string>, extras: map<string, string>): (lines: seq<Line>)
    requires forall n :: 0 <= n < |order| ==> order[n] in extras
    ensures |lines| == |order|
  {
    seq(|order|, n requires 0 <= n < |order| => Binding(order[n], extras[order[n]]))
  }

  function Header(): seq<Line> {
    [Comment("# Managed by xiaomaolv setup UI."), Comment("# You can still edit this file manually."), Comment("")]
  }

  function ExtrasHeader(): seq<Line> {
    [Comment(""), Comment("# Extra variables preserved from previous file")]
  }

  /** An order in which to visit the extra variables; the source's is ascending, any one will do. */
  predicate Visits(order: seq<string>, extras: map<string, string>) {
    && (forall n :: 0 <= n < |order| ==> order[n] in extras)
    && (forall k :: k in extras ==> k in order)
  }

  function FileLines(fields: seq<FieldSpec>, known: map<string, string>, extras: map<string, string>,
                     order: seq<string>): seq<Line>
    requires Visits(order, extras)
  {
    Header() + FieldLines(fields, known)
    + (if extras == map[] then [] else ExtrasHeader() + ExtraLines(order, extras))
  }

  lemma RenderedSnoc(lines: seq<Line>, line: Line)
    ensures Rendered(lines + [line]) == Rendered(lines) + (LineText(line) + "\n")
  {
    assert Texts(lines + [line]) == Texts(lines) + [LineText(line)];
    UnlinesSnoc(Texts(lines), LineText(line));
  }

  lemma RenderedStep(before: seq<Line>, lines: seq<Line>, n: nat)
    requires n < |lines|
    ensures Rendered(before + lines[..n + 1]) == Rendered(before + lines[..n]) + (LineText(lines[n]) + "\n")
  {
    RenderedSnoc(before + lines[..n], lines[n]);
    assert before + lines[..n] + [lines[n]] == before + lines[..n + 1];
  }

  lemma RenderedNone()
    ensures Rendered([]) == ""
  {
    assert Texts([]) == [];
  }

  method AppendComment(out: string, text: string, ghost lines: seq<Line>) returns (out': string)
    requires out == Rendered(lines)
    ensures out' == Rendered(lines + [Comment(text)])
  {
    RenderedSnoc(lines, Comment(text));
    out' := out + (text + "\n");
  }

  method RenderHeader() returns (out: string)
    ensures out == Rendered(Header())
  {
    RenderedNone();
    ghost var header := Header();
    out := AppendComment("", "# Managed by xiaomaolv setup UI.", []);
    out := AppendComment(out, "# You can still edit this file manually.", [] + [header[0]]);
    out := AppendComment(out, "", [] + [header[0]] + [header[1]]);
    assert [] + [header[0]] + [header[1]] + [header[2]] == header;
  }

  /** One field of the page: a heading where a new group starts, then the assignment. */
  method RenderField(spec: FieldSpec, known: map<string, string>, currentGroup: string, out: string,
                     ghost lines: seq<Line>) returns (out': string)
    requires out == Rendered(lines)
    ensures out' == Rendered(lines + (Heading(spec, currentGroup) + [Binding(spec.key, GetOrEmpty(known, spec.key))]))
  {
    out' := out;
    ghost var lines' := lines;
    if spec.groupKey != currentGroup {
      if currentGroup != "" {
        RenderedSnoc(lines', Comment(""));
        out' := out' + "\n";
        lines' := lines' + [Comment("")];
      }
      RenderedSnoc(lines', Comment("# " + spec.groupName));
      out' := out' + ("# " + spec.groupName + "\n");
      lines' := lines' + [Comment("# " + spec.groupName)];
    }
    assert lines' == lines + Heading(spec, currentGroup);
    var value := GetOrEmpty(known, spec.key);
    RenderedSnoc(lines', Binding(spec.key, value));
    out' := out' + (spec.key + "=" + FormatEnvValue(value) + "\n");
    assert lines' + [Binding(spec.key, value)] == lines + (Heading(spec, currentGroup) + [Binding(spec.key, value)]);
  }

  lemma FieldLinesNext(fields: seq<FieldSpec>, n: nat, known: map<string, string>)
    requires n < |fields|
    ensures FieldLines(fields[..n + 1], known)
         == FieldLines(fields[..n], known) + Heading(fields[n], LastGroup(fields[..n])) + [Binding(fields[n].key, GetOrEmpty(known, fields[n].key))]
  {
    assert fields[..n + 1][..n] == fields[..n];
  }

  lemma FieldLinesSnoc(fields: seq<FieldSpec>, n: nat, known: map<string, string>, before: seq<Line>)
    requires n < |fields|
    ensures var block := Heading(fields[n], LastGroup(fields[..n])) + [Binding(fields[n].key, GetOrEmpty(known, fields[n].key))];
            before + FieldLines(fields[..n + 1], known) == before + FieldLines(fields[..n], known) + block
    ensures LastGroup(fields[..n + 1]) == fields[n].groupKey
  {
    FieldLinesNext(fields, n, known);
    var heading, binding := Heading(fields[n], LastGroup(fields[..n])), [Binding(fields[n].key, GetOrEmpty(known, fields[n].key))];
    Associates(FieldLines(fields[..n], known), heading, binding);
    Associates(before, FieldLines(fields[..n], known), heading + binding);
  }

  method RenderFields(fields: seq<FieldSpec>, known: map<string, string>, start: string, ghost before: seq<Line>)
    returns (out: string)
    requires start == Rendered(before)
    ensures out == Rendered(before + FieldLines(fields, known))
  {
    out := start;
    assert before + FieldLines(fields[..0], known) == before;
    var currentGroup := "";
    for n := 0 to |fields|
      invariant currentGroup == LastGroup(fields[..n])
      invariant out == Rendered(before + FieldLines(fields[..n], known))
    {
      FieldLinesSnoc(fields, n, known, before);
      out := RenderField(fields[n], known, currentGroup, out, before + FieldLines(fields[..n], known));
      currentGroup := fields[n].groupKey;
    }
    assert fields[..|fields|] == fields;
  }

  method RenderExtras(extras: map<string, string>, order: seq<string>, start: string, ghost before: seq<Line>)
    returns (out: string)
    requires Visits(order, extras)
    requires start == Rendered(before)
    ensures out == Rendered(before + ExtrasHeader() + ExtraLines(order, extras))
  {
    var blank, heading := Comment(""), Comment("# Extra variables preserved from previous file");
    RenderedSnoc(before, blank);
    RenderedSnoc(before + [blank], heading);
    out := start + ("" + "\n");
    out := out + (heading.text + "\n");
    ghost var top := before + ExtrasHeader();
    assert top == before + [blank] + [heading];
    assert top + ExtraLines(order, extras)[..0] == top;
    for n := 0 to |order|
      invariant out == Rendered(top + ExtraLines(order, extras)[..n])
    {
      var key := order[n];
      RenderedStep(top, ExtraLines(order, extras), n);
      out := out + (key + "=" + FormatEnvValue(extras[key]) + "\n");
    }
    assert ExtraLines(order, extras)[..|order|] == ExtraLines(order, extras);
  }

  method RenderEnvFile(fields: seq<FieldSpec>, known: map<string, string>, extras: map<string, string>,
                       order: seq<string>) returns (out: string)
    requires Visits(order, extras)
    ensures out == Rendered(FileLines(fields, known, extras, order))
  {
    out := RenderHeader();
    out := RenderFields(fields, known, out, Header());
    ghost var top := Header() + FieldLines(fields, known);
    if extras != map[] {
      out := RenderExtras(extras, order, out, top);
      assert top + ExtrasHeader() + ExtraLines(order, extras) == top + (ExtrasHeader() + ExtraLines(order, extras));
    } else {
      assert top + [] == top;
    }
  }

  // ---- The round trip ------------------------------------------------------------------------

  predicate LineOk(line: Line) {
    match line
    case Comment(text) => IsClean(text) && (text == "" || (text[0] == '#' && !IsWhitespace(text[|text| - 1])))
    case Binding(key, value) => IsWellFormedKey(key)
  }

  predicate LinesOk(lines: seq<Line>) {
    forall n :: 0 <= n < |lines| ==> LineOk(lines[n])
  }

  /** The assignments of a file's lines; the last one for a key wins. */
  function Bindings(lines: seq<Line>): map<string, string> {
    if lines == [] then map[]
    else
      var before, last := Bindings(lines[..|lines| - 1]), lines[|lines| - 1];
      if last.Binding? then before[last.key := last.value] else before
  }

  lemma {:induction false} BindingsConcat(a: seq<Line>, b: seq<Line>)
    ensures Bindings(a + b) == Bindings(a) + Bindings(b)
  {
    if b == [] {
      assert a + b == a;
    } else {
      assert (a + b)[..|a + b| - 1] == a + b[..|b| - 1];
      BindingsConcat(a, b[..|b| - 1]);
    }
  }

  lemma LineParses(line: Line)
    requires LineOk(line)
    ensures ParseLine(LineText(line)) == if line.Binding? then Some((line.key, line.value)) else None
  {
    match line
    case Comment(text) => CommentIgnored(text);
    case Binding(key, value) => AssignmentParses(key, value);
  }

  lemma {:induction false} ParseTexts(lines: seq<Line>)
    requires LinesOk(lines)
    ensures ParseLines(Texts(lines)) == Bindings(lines)
  {
    if lines != [] {
      var last := |lines| - 1;
      assert Texts(lines)[..last] == Texts(lines[..last]);
      ParseTexts(lines[..last]);
      LineParses(lines[last]);
    }
  }

  lemma AssignmentClean(key: string, value: string)
    requires IsWellFormedKey(key) && OneLine(value)
    ensures IsClean(Assignment(key, value))
  {
    FormatValueShape(value);
    AsciiWhitespace('\r');
  }

  lemma ParseRendered(lines: seq<Line>)
    requires LinesOk(lines) && OneLineValues(lines)
    ensures ParseFile(Rendered(lines)) == Bindings(lines)
  {
    var texts := Texts(lines);
    forall n | 0 <= n < |texts|
      ensures IsClean(texts[n])
    {
      assert LineOk(lines[n]);
      if lines[n].Binding? {
        AssignmentClean(lines[n].key, lines[n].value);
      }
    }
    LinesInvertUnlines(texts);
    ParseTexts(lines);
  }

  predicate FieldsOk(fields: seq<FieldSpec>) {
    forall n :: 0 <= n < |fields| ==>
      && IsWellFormedKey(fields[n].key)
      && fields[n].groupKey != "" && OneLine(fields[n].groupName)
      && fields[n].groupName != "" && IsTrimmed(fields[n].groupName)
  }

  function FieldKeys(fields: seq<FieldSpec>): set<string> {
    set n | 0 <= n < |fields| :: fields[n].key
  }

  function KnownValues(fields: seq<FieldSpec>, known: map<string, string>): map<string, string> {
    map k | k in FieldKeys(fields) :: GetOrEmpty(known, k)
  }

  /** What a reader of the file should get: each field's value, empty when it is missing, and every extra. */
  function Expected(fields: seq<FieldSpec>, known: map<string, string>, extras: map<string, string>): map<string, string> {
    KnownValues(fields, known) + extras
  }

  lemma CommentOk(name: string)
    requires OneLine(name) && name != "" && IsTrimmed(name)
    ensures LineOk(Comment("# " + name))
  {
    AsciiWhitespace('\r');
    var comment := "# " + name;
    assert comment[|comment| - 1] == name[|name| - 1];
  }

  lemma {:induction false} CommentsBindNothing(lines: seq<Line>)
    requires forall n :: 0 <= n < |lines| ==> lines[n].Comment?
    ensures Bindings(lines) == map[]
  {
    if lines != [] {
      CommentsBindNothing(lines[..|lines| - 1]);
    }
  }

  lemma HeadingOk(spec: FieldSpec, group: string)
    requires OneLine(spec.groupName) && spec.groupName != "" && IsTrimmed(spec.groupName)
    ensures LinesOk(Heading(spec, group)) && Bindings(Heading(spec, group)) == map[]
  {
    CommentOk(spec.groupName);
    CommentsBindNothing(Heading(spec, group));
  }

  lemma {:induction false} FieldLinesBind(fields: seq<FieldSpec>, known: map<string, string>)
    requires FieldsOk(fields)
    ensures LinesOk(FieldLines(fields, known)) && Bindings(FieldLines(fields, known)) == KnownValues(fields, known)
  {
    if fields == [] {
      assert KnownValues(fields, known) == map[];
    } else {
      var before, spec := fields[..|fields| - 1], fields[|fields| - 1];
      FieldLinesBind(before, known);
      HeadingOk(spec, LastGroup(before));
      BlockBinds(FieldLines(before, known), Heading(spec, LastGroup(before)), Binding(spec.key, GetOrEmpty(known, spec.key)));
      KnownValuesSnoc(fields, known);
    }
  }

  lemma KnownValuesSnoc(fields: seq<FieldSpec>, known: map<string, string>)
    requires fields != []
    ensures var before, spec := fields[..|fields| - 1], fields[|fields| - 1];
            KnownValues(fields, known) == KnownValues(before, known)[spec.key := GetOrEmpty(known, spec.key)]
  {
    FieldKeysSnoc(fields);
  }

  lemma BlockBinds(lines: seq<Line>, heading: seq<Line>, binding: Line)
    requires LinesOk(lines) && LinesOk(heading) && Bindings(heading) == map[]
    requires LineOk(binding) && binding.Binding?
    ensures LinesOk(lines + heading + [binding])
    ensures Bindings(lines + heading + [binding]) == Bindings(lines)[binding.key := binding.value]
  {
    BindingsConcat(lines, heading);
    BindingsSnoc(lines + heading, binding);
  }

  lemma BindingsSnoc(lines: seq<Line>, line: Line)
    requires line.Binding?
    ensures Bindings(lines + [line]) == Bindings(lines)[line.key := line.value]
  {
    assert (lines + [line])[..|lines|] == lines;
  }

  lemma FieldKeysSnoc(fields: seq<FieldSpec>)
    requires fields != []
    ensures FieldKeys(fields) == FieldKeys(fields[..|fields| - 1]) + {fields[|fields| - 1].key}
  {
    var before := fields[..|fields| - 1];
    forall k | k in FieldKeys(fields)
      ensures k in FieldKeys(before) + {fields[|fields| - 1].key}
    {
      var n :| 0 <= n < |fields| && fields[n].key == k;
      if n < |before| {
        assert before[n].key == k;
      }
    }
    forall k | k in FieldKeys(before)
      ensures k in FieldKeys(fields)
    {
      var n :| 0 <= n < |before| && before[n].key == k;
      assert fields[n].key == k;
    }
  }

  lemma {:induction false} FieldLinesOneLine(fields: seq<FieldSpec>, known: map<string, string>)
    requires forall k :: k in FieldKeys(fields) && k in known ==> OneLine(known[k])
    ensures OneLineValues(FieldLines(fields, known))
  {
    if fields != [] {
      FieldKeysSnoc(fields);
      FieldLinesOneLine(fields[..|fields| - 1], known);
    }
  }

  lemma {:induction false} ExtraLinesBind(order: seq<string>, extras: map<string, string>)
    requires forall n :: 0 <= n < |order| ==> order[n] in extras
    ensures Bindings(ExtraLines(order, extras)) == map k | k in order :: extras[k]
  {
    if order != [] {
      var last := |order| - 1;
      assert ExtraLines(order, extras)[..last] == ExtraLines(order[..last], extras);
      ExtraLinesBind(order[..last], extras);
      assert order == order[..last] + [order[last]];
    }
  }

  lemma HeaderTextOk()
    ensures LineOk(Comment("# Managed by xiaomaolv setup UI."))
  {
    AsciiWhitespace('.');
    assert OneLine("# Managed by xia") && "# Managed by xia"[0] == '#';
  }

  lemma HeaderHintOk()
    ensures LineOk(Comment("# You can still edit this file manually."))
  {
    AsciiWhitespace('.');
    assert OneLine("# You can still edit");
  }

  lemma ExtrasTextOk()
    ensures LineOk(Comment("# Extra variables preserved from previous file"))
  {
    AsciiWhitespace('e');
    assert OneLine("# Extra variables pre") && "# Extra variables pre"[0] == '#';
    assert OneLine("# Extra variables preserved from") && "# Extra variables preserved from"[0] == '#';
  }

  lemma HeadersOk()
    ensures LinesOk(Header()) && Bindings(Header()) == map[]
    ensures LinesOk(ExtrasHeader()) && Bindings(ExtrasHeader()) == map[]
  {
    HeaderTextOk();
    HeaderHintOk();
    ExtrasTextOk();
    CommentsBindNothing(Header());
    CommentsBindNothing(ExtrasHeader());
  }

  /** Every value a file is asked to hold is one line, and every extra key is well formed. */
  ghost predicate IsStorable(fields: seq<FieldSpec>, known: map<string, string>, extras: map<string, string>) {
    && (forall k :: k in FieldKeys(fields) && k in known ==> OneLine(known[k]))
    && (forall k :: k in extras ==> IsWellFormedKey(k) && OneLine(extras[k]))
  }

  predicate OneLineValues(lines: seq<Line>) {
    forall n :: 0 <= n < |lines| && lines[n].Binding? ==> OneLine(lines[n].value)
  }

  /** What is needed of lines to be read back as the map `m`. */
  ghost predicate Carries(lines: seq<Line>, m: map<string, string>) {
    LinesOk(lines) && OneLineValues(lines) && Bindings(lines) == m
  }

  lemma CarriesConcat(a: seq<Line>, m: map<string, string>, b: seq<Line>, n: map<string, string>)
    requires Carries(a, m) && Carries(b, n)
    ensures Carries(a + b, m + n)
  {
    BindingsConcat(a, b);
  }

  lemma HeadersCarry()
    ensures Carries(Header(), map[]) && Carries(ExtrasHeader(), map[])
  {
    HeadersOk();
  }

  lemma FieldLinesCarry(fields: seq<FieldSpec>, known: map<string, string>)
    requires FieldsOk(fields) && forall k :: k in FieldKeys(fields) && k in known ==> OneLine(known[k])
    ensures Carries(FieldLines(fields, known), KnownValues(fields, known))
  {
    FieldLinesBind(fields, known);
    FieldLinesOneLine(fields, known);
  }

  lemma CarriesAfterComments(comments: seq<Line>, lines: seq<Line>, m: map<string, string>)
    requires Carries(comments, map[]) && Carries(lines, m)
    ensures Carries(comments + lines, m)
  {
    CarriesConcat(comments, map[], lines, m);
    assert map[] + m == m;
  }

  lemma FieldsCarry(fields: seq<FieldSpec>, known: map<string, string>)
    requires FieldsOk(fields) && forall k :: k in FieldKeys(fields) && k in known ==> OneLine(known[k])
    ensures Carries(Header() + FieldLines(fields, known), KnownValues(fields, known))
  {
    HeadersCarry();
    FieldLinesCarry(fields, known);
    CarriesAfterComments(Header(), FieldLines(fields, known), KnownValues(fields, known));
  }

  lemma ExtraLinesCarry(extras: map<string, string>, order: seq<string>)
    requires Visits(order, extras) && forall k :: k in extras ==> IsWellFormedKey(k) && OneLine(extras[k])
    ensures Carries(ExtraLines(order, extras), extras)
  {
    ExtraLinesBind(order, extras);
    assert (map k | k in order :: extras[k]) == extras;
  }

  lemma ExtrasCarry(extras: map<string, string>, order: seq<string>)
    requires Visits(order, extras) && forall k :: k in extras ==> IsWellFormedKey(k) && OneLine(extras[k])
    ensures Carries(ExtrasHeader() + ExtraLines(order, extras), extras)
  {
    HeadersCarry();
    ExtraLinesCarry(extras, order);
    CarriesAfterComments(ExtrasHeader(), ExtraLines(order, extras), extras);
  }

  lemma StorableRoundTrips(fields: seq<FieldSpec>, known: map<string, string>, extras: map<string, string>, order: seq<string>)
    requires FieldsOk(fields) && Visits(order, extras)
    requires IsStorable(fields, known, extras)
    ensures ParseFile(Rendered(FileLines(fields, known, extras, order))) == Expected(fields, known, extras)
  {
    FieldsCarry(fields, known);
    ExtrasCarry(extras, order);
    CarriesConcat(Header() + FieldLines(fields, known), KnownValues(fields, known),
                  if extras == map[] then [] else ExtrasHeader() + ExtraLines(order, extras), extras);
    ParseRendered(FileLines(fields, known, extras, order));
  }

  /** Parsing a rendered file gives back every field and every extra exactly when all values are one line and
      all extra keys are well formed. The caller splits the two maps, so no extra is a field. */
  lemma EnvFileRoundTrip(fields: seq<FieldSpec>, known: map<string, string>, extras: map<string, string>, order: seq<string>)
    requires FieldsOk(fields) && Visits(order, extras)
    requires extras.Keys !! FieldKeys(fields)
    ensures ParseFile(Rendered(FileLines(fields, known, extras, order))) == Expected(fields, known, extras)
       <==> IsStorable(fields, known, extras)
  {
    if IsStorable(fields, known, extras) {
      StorableRoundTrips(fields, known, extras, order);
    } else {
      ParseFileParsed(Rendered(FileLines(fields, known, extras, order)));
      UnstorableUnparsed(fields, known, extras);
    }
  }

  lemma UnstorableUnparsed(fields: seq<FieldSpec>, known: map<string, string>, extras: map<string, string>)
    requires extras.Keys !! FieldKeys(fields) && !IsStorable(fields, known, extras)
    ensures !IsParsed(Expected(fields, known, extras))
  {
    var expected := Expected(fields, known, extras);
    if k :| k in FieldKeys(fields) && k in known && !OneLine(known[k]) {
      assert expected[k] == known[k];
    } else {
      var k :| k in extras && !(IsWellFormedKey(k) && OneLine(extras[k]));
      assert k in expected && expected[k] == extras[k];
    }
  }

  /** The setup page splits the variables it is about to write into fields and extras. */
  function Known(fields: seq<FieldSpec>, all: map<string, string>): map<string, string> {
    map k | k in all && k in FieldKeys(fields) :: all[k]
  }

  function Extras(fields: seq<FieldSpec>, all: map<string, string>): map<string, string> {
    map k | k in all && k !in FieldKeys(fields) :: all[k]
  }

  lemma SplitStorable(fields: seq<FieldSpec>, previous: map<string, string>, updates: map<string, string>)
    requires IsParsed(previous) && updates.Keys <= FieldKeys(fields)
    ensures var all := previous + updates;
            IsStorable(fields, Known(fields, all), Extras(fields, all)) <==> forall k :: k in updates ==> OneLine(updates[k])
  {
    var known := Known(fields, previous + updates);
    if k :| k in updates && !OneLine(updates[k]) {
      assert k in known && known[k] == updates[k];
    }
  }

  /** Saving from the setup page: the old file's variables, updated with new field values, are written back. No
      extra is lost or changed and the fields survive, exactly when the new values are one line each. */
  lemma SaveRoundTrip(fields: seq<FieldSpec>, previous: string, updates: map<string, string>, order: seq<string>)
    requires FieldsOk(fields) && updates.Keys <= FieldKeys(fields)
    requires Visits(order, Extras(fields, ParseFile(previous) + updates))
    ensures var all := ParseFile(previous) + updates;
            var known, extras := Known(fields, all), Extras(fields, all);
            ParseFile(Rendered(FileLines(fields, known, extras, order))) == Expected(fields, known, extras)
            <==> forall k :: k in updates ==> OneLine(updates[k])
  {
    ParseFileParsed(previous);
    var all := ParseFile(previous) + updates;
    EnvFileRoundTrip(fields, Known(fields, all), Extras(fields, all), order);
    SplitStorable(fields, ParseFile(previous), updates);
  }

  /** More fields only add lines at the end. */
  lemma {:induction false} FieldLinesGrow(fields: seq<FieldSpec>, known: map<string, string>, n: nat)
    requires n <= |fields|
    ensures FieldLines(fields[..n], known) <= FieldLines(fields, known)
    decreases |fields|
  {
    if n == |fields| {
      assert fields[..n] == fields;
    } else {
      assert fields[..|fields| - 1][..n] == fields[..n];
      FieldLinesGrow(fields[..|fields| - 1], known, n);
    }
  }

  /** The lines that a field adds. */
  function Block(fields: seq<FieldSpec>, known: map<string, string>, n: nat): seq<Line>
    requires n < |fields|
  {
    var heading := Comment("# " + fields[n].groupName);
    (if n == 0 then [heading] else if fields[n].groupKey == fields[n - 1].groupKey then [] else [Comment(""), heading])
    + [Binding(fields[n].key, if fields[n].key in known then known[fields[n].key] else "")]
  }

  lemma BlockIs(fields: seq<FieldSpec>, known: map<string, string>, n: nat)
    requires FieldsOk(fields) && n < |fields|
    ensures Heading(fields[n], LastGroup(fields[..n])) + [Binding(fields[n].key, GetOrEmpty(known, fields[n].key))] == Block(fields, known, n)
  {
    assert fields[n].groupKey != "" && (n > 0 ==> fields[n - 1].groupKey != "");
    assert LastGroup(fields[..n]) == if n == 0 then "" else fields[n - 1].groupKey;
  }

  /** Each field is written in its place with its value, empty when there is none; and where a new group starts, under the
      group's heading, after a blank line unless it is the first. */
  lemma FieldsAreHeaded(fields: seq<FieldSpec>, known: map<string, string>, n: nat)
    requires FieldsOk(fields) && n < |fields|
    ensures FieldLines(fields[..n], known) + Block(fields, known, n) <= FieldLines(fields, known)
  {
    FieldLinesNext(fields, n, known);
    BlockIs(fields, known, n);
    FieldLinesGrow(fields, known, n + 1);
    Associates(FieldLines(fields[..n], known), Heading(fields[n], LastGroup(fields[..n])), [Binding(fields[n].key, GetOrEmpty(known, fields[n].key))]);
  }
}

/**
 Finding a JSON value inside model output (src/json_utils.rs), against the
 grammar of RFC 8259 (sections 2 to 7).
 */
module JsonPayload {
  import opened Text
  import opened JsonSegment

  // ---- The grammar ---------------------------------------------------------------------------

  /** A JSON value with all the white space of its text. An array's slots are unnamed, an object's are named. */
  datatype Value =
    | Atom(token: string)
    | Str(body: string)
    | Compound(open: char, pad: string, slots: seq<Slot>)

  datatype Slot = Slot(lead: string, name: Option<Name>, value: Value, trail: string)

  datatype Name = Name(body: string, beforeColon: string, afterColon: string)

  predicate IsJsonSpace(s: string) {
    forall i :: 0 <= i < |s| ==> s[i] in " \t\n\r"
  }

  predicate IsHexDigits(s: string) {
    forall i :: 0 <= i < |s| ==> '0' <= s[i] <= '9' || 'a' <= s[i] <= 'f' || 'A' <= s[i] <= 'F'
  }

  predicate IsDigits(s: string) {
    s != "" && forall i :: 0 <= i < |s| ==> '0' <= s[i] <= '9'
  }

  predicate IsNumberOf(sign: string, whole: string, frac: string, exp: string) {
    && (sign == "" || sign == "-")
    && IsDigits(whole) && (whole[0] == '0' ==> |whole| == 1)
    && (frac == "" || (frac[0] == '.' && IsDigits(frac[1..])))
    && (exp == "" || (exp[0] in "eE" && (IsDigits(exp[1..]) || (|exp| >= 2 && exp[1] in "+-" && IsDigits(exp[2..])))))
  }

  ghost predicate IsAtom(token: string) {
    || token in ["false", "null", "true"]
    || exists sign, whole, frac, exp :: IsNumberOf(sign, whole, frac, exp) && token == sign + whole + frac + exp
  }

  predicate IsJsonStringBody(body: string) {
    if body == "" then true
    else if body[0] == '\\' then
      || (|body| >= 2 && body[1] in "\"\\/bfnrt" && IsJsonStringBody(body[2..]))
      || (|body| >= 6 && body[1] == 'u' && IsHexDigits(body[2..6]) && IsJsonStringBody(body[6..]))
    else body[0] != '"' && body[0] >= ' ' && IsJsonStringBody(body[1..])
  }

  ghost predicate IsValue(v: Value)
    decreases v, 1
  {
    match v
    case Atom(token) => IsAtom(token)
    case Str(body) => IsJsonStringBody(body)
    case Compound(open, pad, slots) => (open == '{' || open == '[') && IsJsonSpace(pad) && AreSlots(slots, open == '{')
  }

  ghost predicate AreSlots(slots: seq<Slot>, named: bool)
    decreases slots, 0
  {
    slots == [] || (
      && IsJsonSpace(slots[0].lead) && IsJsonSpace(slots[0].trail) && IsValue(slots[0].value)
      && slots[0].name.Some? == named
      && (named ==> IsName(slots[0].name.value))
      && AreSlots(slots[1..], named))
  }

  predicate IsName(name: Name) {
    IsJsonStringBody(name.body) && IsJsonSpace(name.beforeColon) && IsJsonSpace(name.afterColon)
  }

  function ValueText(v: Value): string
    decreases v, 1
  {
    match v
    case Atom(token) => token
    case Str(body) => "\"" + body + "\""
    case Compound(open, pad, slots) => [open] + (if slots == [] then pad else SlotsText(slots)) + [Closer(open)]
  }

  function SlotsText(slots: seq<Slot>): string
    decreases slots, 0
  {
    if slots == [] then ""
    else
      var slot := slots[0];
      SlotText(slot, ValueText(slot.value)) + (if |slots| == 1 then "" else "," + SlotsText(slots[1..]))
  }

  function SlotText(slot: Slot, valueText: string): string {
    (slot.lead + NameText(slot.name)) + (valueText + slot.trail)
  }

  function NameText(name: Option<Name>): string {
    match name
    case None => ""
    case Some(n) => (("\"" + n.body + "\"") + n.beforeColon) + (":" + n.afterColon)
  }

  // ---- Every JSON value is bracketed text ----------------------------------------------------

  function Chars(s: string): (items: seq<Item>)
    ensures |items| == |s|
  {
    if s == "" then [] else [Plain(s[0])] + Chars(s[1..])
  }

  lemma {:induction false} CharsText(s: string)
    requires AllPlain(s)
    ensures ItemsOk(Chars(s)) && ItemsText(Chars(s)) == s
  {
    if s != "" {
      CharsText(s[1..]);
      assert Chars(s)[1..] == Chars(s[1..]);
    }
  }

  function ValueItems(v: Value): seq<Item>
    decreases v, 1
  {
    match v
    case Atom(token) => Chars(token)
    case Str(body) => [Literal(body)]
    case Compound(open, pad, slots) => [Group(open, if slots == [] then Chars(pad) else SlotsItems(slots))]
  }

  function SlotsItems(slots: seq<Slot>): seq<Item>
    decreases slots, 0
  {
    if slots == [] then []
    else
      var slot := slots[0];
      SlotItems(slot, ValueItems(slot.value)) + (if |slots| == 1 then [] else Chars(",") + SlotsItems(slots[1..]))
  }

  function SlotItems(slot: Slot, valueItems: seq<Item>): seq<Item> {
    (Chars(slot.lead) + NameItems(slot.name)) + (valueItems + Chars(slot.trail))
  }

  function NameItems(name: Option<Name>): seq<Item> {
    match name
    case None => []
    case Some(n) => ([Literal(n.body)] + Chars(n.beforeColon)) + (Chars(":") + Chars(n.afterColon))
  }

  ghost predicate Spells(items: seq<Item>, text: string) {
    ItemsOk(items) && ItemsText(items) == text
  }

  lemma SpellsConcat(a: seq<Item>, s: string, b: seq<Item>, t: string)
    requires Spells(a, s) && Spells(b, t)
    ensures Spells(a + b, s + t)
  {
    ItemsConcat(a, b);
  }

  lemma {:induction false} JsonBodyIsStringBody(body: string)
    requires IsJsonStringBody(body)
    ensures IsStringBody(body)
  {
    if body == "" {
    } else if body[0] == '\\' && body[1] == 'u' {
      JsonBodyIsStringBody(body[6..]);
      HexDigitsThenBody(body[2..6], body[6..]);
      assert body[2..] == body[2..6] + body[6..];
    } else if body[0] == '\\' {
      JsonBodyIsStringBody(body[2..]);
    } else {
      JsonBodyIsStringBody(body[1..]);
    }
  }

  lemma {:induction false} HexDigitsThenBody(hex: string, rest: string)
    requires IsHexDigits(hex) && IsStringBody(rest)
    ensures IsStringBody(hex + rest)
  {
    if hex == "" {
      assert hex + rest == rest;
    } else {
      assert (hex + rest)[1..] == hex[1..] + rest;
      HexDigitsThenBody(hex[1..], rest);
    }
  }

  lemma LiteralSpells(body: string)
    requires IsJsonStringBody(body)
    ensures Spells([Literal(body)], "\"" + body + "\"")
  {
    JsonBodyIsStringBody(body);
    var items := [Literal(body)];
    assert items[1..] == [];
    assert ItemsText(items) == ItemText(items[0]) + "";
  }

  predicate AllPlain(s: string) {
    forall i :: 0 <= i < |s| ==> IsPlain(s[i])
  }

  lemma PlainConcat(a: string, b: string)
    requires AllPlain(a) && AllPlain(b)
    ensures AllPlain(a + b)
  {
  }

  lemma AtomIsPlain(token: string)
    requires IsAtom(token)
    ensures AllPlain(token)
  {
    if token !in ["false", "null", "true"] {
      var sign, whole, frac, exp :| IsNumberOf(sign, whole, frac, exp) && token == sign + whole + frac + exp;
      assert AllPlain(whole);
      assert AllPlain(frac) by {
        if frac != "" {
          MarkedDigitsArePlain(frac, 1);
        }
      }
      assert AllPlain(exp) by {
        if exp != "" {
          MarkedDigitsArePlain(exp, if IsDigits(exp[1..]) then 1 else 2);
        }
      }
      PlainConcat(sign, whole);
      PlainConcat(sign + whole, frac);
      PlainConcat(sign + whole + frac, exp);
    }
  }

  lemma MarkedDigitsArePlain(s: string, k: nat)
    requires k <= |s| && AllPlain(s[..k]) && IsDigits(s[k..])
    ensures AllPlain(s)
  {
    assert AllPlain(s[k..]);
    PlainConcat(s[..k], s[k..]);
    assert s == s[..k] + s[k..];
  }

  lemma NameSpells(name: Name)
    requires IsName(name)
    ensures Spells(NameItems(Some(name)), NameText(Some(name)))
  {
    LiteralSpells(name.body);
    SpaceSpells(name.beforeColon);
    CharsText(":");
    SpaceSpells(name.afterColon);
    SpellsFour([Literal(name.body)], "\"" + name.body + "\"", Chars(name.beforeColon), name.beforeColon,
               Chars(":"), ":", Chars(name.afterColon), name.afterColon);
  }

  lemma {:induction false} ValueSpells(v: Value)
    requires IsValue(v)
    ensures Spells(ValueItems(v), ValueText(v))
    decreases v, 1
  {
    match v
    case Atom(token) =>
      AtomIsPlain(token);
      CharsText(token);
    case Str(body) =>
      LiteralSpells(body);
    case Compound(open, pad, slots) =>
      if slots == [] {
        CharsText(pad);
      } else {
        SlotsSpell(slots, open == '{');
      }
      var items := ValueItems(v);
      assert items[1..] == [];
      assert ItemsText(items) == ItemText(items[0]) + "";
  }

  lemma {:induction false} SlotsSpell(slots: seq<Slot>, named: bool)
    requires AreSlots(slots, named)
    ensures Spells(SlotsItems(slots), SlotsText(slots))
    decreases slots, 0
  {
    if slots != [] {
      var slot := slots[0];
      ValueSpells(slot.value);
      SlotSpells(slot, ValueItems(slot.value), ValueText(slot.value));
      if |slots| == 1 {
        SpellsConcat(SlotItems(slot, ValueItems(slot.value)), SlotText(slot, ValueText(slot.value)), [], "");
      } else {
        CharsText(",");
        SlotsSpell(slots[1..], named);
        SpellsConcat(Chars(","), ",", SlotsItems(slots[1..]), SlotsText(slots[1..]));
        SpellsConcat(SlotItems(slot, ValueItems(slot.value)), SlotText(slot, ValueText(slot.value)),
                     Chars(",") + SlotsItems(slots[1..]), "," + SlotsText(slots[1..]));
      }
    }
  }

  lemma SlotSpells(slot: Slot, items: seq<Item>, text: string)
    requires IsJsonSpace(slot.lead) && IsJsonSpace(slot.trail)
    requires slot.name.Some? ==> IsName(slot.name.value)
    requires Spells(items, text)
    ensures Spells(SlotItems(slot, items), SlotText(slot, text))
  {
    SpaceSpells(slot.lead);
    SpaceSpells(slot.trail);
    if slot.name.Some? {
      NameSpells(slot.name.value);
    }
    SpellsFour(Chars(slot.lead), slot.lead, NameItems(slot.name), NameText(slot.name), items, text, Chars(slot.trail), slot.trail);
  }

  lemma SpaceSpells(s: string)
    requires IsJsonSpace(s)
    ensures Spells(Chars(s), s)
  {
    assert AllPlain(s);
    CharsText(s);
  }

  lemma SpellsFour(a: seq<Item>, s: string, b: seq<Item>, t: string, c: seq<Item>, u: string, d: seq<Item>, v: string)
    requires Spells(a, s) && Spells(b, t) && Spells(c, u) && Spells(d, v)
    ensures Spells((a + b) + (c + d), (s + t) + (u + v))
  {
    SpellsConcat(a, s, b, t);
    SpellsConcat(c, u, d, v);
    SpellsConcat(a + b, s + t, c + d, u + v);
  }

  lemma CompoundCloses(v: Value)
    requires IsValue(v) && v.Compound?
    ensures Run(START, ValueText(v)) == Closed
  {
    ValueSpells(v);
    var items := ValueItems(v);
    assert items == [items[0]] && items[1..] == [];
    assert ItemsText(items) == ItemText(items[0]) + "" == ItemText(items[0]);
    assert ItemOk(items[0]);
    RunItem(START, items[0]);
  }

  /** On the text of any JSON object or array followed by anything, the scanner returns exactly that text's length. */
  lemma ScannerEndsJsonValue(v: Value, suffix: string, end: Option<nat>)
    requires IsValue(v) && v.Compound?
    requires IsSegmentEnd(ValueText(v) + suffix, end)
    ensures end == Some(Utf8Len(ValueText(v)))
    ensures SliceTo(ValueText(v) + suffix, end.value) == ValueText(v)
  {
    var text := ValueText(v);
    CompoundCloses(v);
    assert (text + suffix)[..|text|] == text;
    SegmentEndIs(text + suffix, end, |text|);
    SliceToPrefix(text, suffix);
  }

  // ---- The extractors ------------------------------------------------------------------------

  /** `c` is the segment the scanner cuts out at an opening bracket at `start`. */
  ghost predicate IsCandidate(text: string, start: nat, c: string) {
    && start < |text| && (text[start] == '{' || text[start] == '[')
    && c <= text[start..] && Run(START, c) == Closed
  }

  /** The extracted segment is the first candidate that parses. */
  ghost predicate IsExtraction(text: string, isJson: string -> bool, r: Option<string>) {
    match r
    case None => forall start: nat, c :: IsCandidate(text, start, c) ==> !isJson(c)
    case Some(found) =>
      isJson(found) && exists start: nat :: IsCandidate(text, start, found) && NoneBefore(text, isJson, start)
  }

  ghost predicate NoneBefore(text: string, isJson: string -> bool, start: nat) {
    forall earlier: nat, c :: earlier < start && IsCandidate(text, earlier, c) ==> !isJson(c)
  }

  lemma CandidateUnique(text: string, start: nat, c: string, d: string)
    requires IsCandidate(text, start, c) && IsCandidate(text, start, d)
    ensures c == d
  {
    var s := text[start..];
    assert s[..|c|] == c && s[..|d|] == d;
    ClosedPrefixUnique(s, |c|, |d|);
  }

  /** A candidate starts and ends with a bracket, so trimming it changes nothing. */
  lemma CandidateIsTrimmed(text: string, start: nat, c: string)
    requires IsCandidate(text, start, c)
    ensures c != "" && IsTrimmed(c)
  {
    var n := |c| - 1;
    assert c[..n + 1] == c;
    RunSnoc(START, c, n);
    assert Step(Run(START, c[..n]), c[n]) == Closed;
    assert c[0] == text[start..][0];
    AsciiWhitespace(c[0]);
    AsciiWhitespace(c[n]);
  }

  lemma NoEndNoCandidate(text: string, start: nat, end: Option<nat>)
    requires start < |text| && IsSegmentEnd(text[start..], end) && end.None?
    ensures forall c :: !IsCandidate(text, start, c)
  {
    var suffix := text[start..];
    forall c
      ensures !IsCandidate(text, start, c)
    {
      if c <= suffix {
        assert suffix[..|c|] == c;
      }
    }
  }

  method ExtractFirstJsonValueSegment(text: string, isJson: string -> bool) returns (r: Option<string>)
    ensures IsExtraction(text, isJson, r)
  {
    var start := 0;
    while start < |text|
      invariant 0 <= start <= |text|
      invariant NoneBefore(text, isJson, start)
    {
      if text[start] == '{' || text[start] == '[' {
        var suffix := text[start..];
        var end := FindJsonSegmentEnd(suffix);
        if end.Some? {
          ghost var n :| 0 <= n <= |suffix| && Run(START, suffix[..n]) == Closed && end.value == Utf8Len(suffix[..n]);
          assert suffix[..n] + suffix[n..] == suffix;
          SliceToPrefix(suffix[..n], suffix[n..]);
          var cut := SliceTo(suffix, end.value);
          assert IsCandidate(text, start, cut);
          CandidateIsTrimmed(text, start, cut);
          TrimIsTrimmed(cut);
          var candidate := Trim(cut);
          if isJson(candidate) {
            return Some(candidate);
          }
          forall c | IsCandidate(text, start, c)
            ensures !isJson(c)
          {
            CandidateUnique(text, start, c, cut);
          }
        } else {
          NoEndNoCandidate(text, start, end);
        }
      }
      start := start + 1;
    }
    return None;
  }

  method ExtractJsonPayload(text: string, isJson: string -> bool) returns (r: Option<string>)
    ensures IsPayload(text, isJson, r)
  {
    var trimmed := Trim(text);
    BlankIffTrimEmpty(text);
    if trimmed == "" {
      return None;
    }
    if isJson(trimmed) {
      return Some(trimmed);
    }
    r := ExtractFirstJsonValueSegment(trimmed, isJson);
  }

  predicate HasNoOpener(s: string) {
    forall i :: 0 <= i < |s| ==> s[i] != '{' && s[i] != '['
  }

  predicate IsSegment(json: string) {
    json != "" && (json[0] == '{' || json[0] == '[') && Run(START, json) == Closed
  }

  lemma EmbeddedSegmentExtracted(prefix: string, json: string, suffix: string, isJson: string -> bool, r: Option<string>)
    requires HasNoOpener(prefix) && IsSegment(json) && isJson(json)
    requires IsExtraction(prefix + json + suffix, isJson, r)
    ensures r == Some(json)
  {
    var text := prefix + json + suffix;
    assert text[|prefix|..] == json + suffix;
    assert IsCandidate(text, |prefix|, json);
    var start: nat :| IsCandidate(text, start, r.value) && NoneBefore(text, isJson, start);
    assert start >= |prefix|;
    CandidateUnique(text, |prefix|, json, if start == |prefix| then r.value else json);
  }

  lemma CompoundIsSegment(v: Value)
    requires IsValue(v) && v.Compound?
    ensures IsSegment(ValueText(v))
  {
    CompoundCloses(v);
  }

  /** An object or array that follows text without opening brackets is extracted whole, whatever comes after it. */
  lemma EmbeddedValueExtracted(prefix: string, v: Value, suffix: string, isJson: string -> bool, r: Option<string>)
    requires HasNoOpener(prefix) && IsValue(v) && v.Compound? && isJson(ValueText(v))
    requires IsExtraction(prefix + ValueText(v) + suffix, isJson, r)
    ensures r == Some(ValueText(v))
  {
    CompoundIsSegment(v);
    EmbeddedSegmentExtracted(prefix, ValueText(v), suffix, isJson, r);
  }

  /** What `ExtractJsonPayload` promises of its result. */
  ghost predicate IsPayload(text: string, isJson: string -> bool, r: Option<string>) {
    if IsBlank(text) then r.None?
    else if isJson(Trim(text)) then r == Some(Trim(text))
    else IsExtraction(Trim(text), isJson, r)
  }

  lemma SegmentPayload(prefix: string, json: string, suffix: string, isJson: string -> bool, r: Option<string>)
    requires HasNoOpener(prefix) && IsSegment(json) && isJson(json)
    requires IsPayload(prefix + json + suffix, isJson, r)
    ensures r == Some(json) || (r == Some(Trim(prefix + json + suffix)) && isJson(r.value))
    ensures IsBlank(prefix) && IsBlank(suffix) ==> r == Some(json)
  {
    assert json[0..] == json;
    CandidateIsTrimmed(json, 0, json);
    TrimAround(prefix, json, suffix);
    var lead, tail := TrimStart(prefix), TrimEnd(suffix);
    if IsBlank(prefix) && IsBlank(suffix) {
      BlankIffAllWhitespace(prefix);
      BlankIffAllWhitespace(suffix);
      assert lead == "" && tail == "";
      assert lead + json + tail == json;
    } else if !isJson(lead + json + tail) {
      EmbeddedSegmentExtracted(lead, json, tail, isJson, r);
    }
  }

  /** A reply that carries one object or array yields that value, unless the reply as a whole parses. */
  lemma ReplyPayload(prefix: string, v: Value, suffix: string, isJson: string -> bool, r: Option<string>)
    requires HasNoOpener(prefix) && IsValue(v) && v.Compound? && isJson(ValueText(v))
    requires IsPayload(prefix + ValueText(v) + suffix, isJson, r)
    ensures r == Some(ValueText(v)) || (r == Some(Trim(prefix + ValueText(v) + suffix)) && isJson(r.value))
    ensures IsBlank(prefix) && IsBlank(suffix) ==> r == Some(ValueText(v))
  {
    CompoundIsSegment(v);
    SegmentPayload(prefix, ValueText(v), suffix, isJson, r);
  }
}

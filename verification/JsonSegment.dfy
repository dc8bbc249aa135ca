/**
 The JSON segment scanner (src/json_utils.rs): a pushdown scan with string and
 escape modes, related to the text of bracketed items and, through it, to the
 JSON grammar of RFC 8259.
 */
module JsonSegment {
  import opened Text

  /** What the scanner remembers after a prefix. Text past the closing bracket breaks the state, so
      no two prefixes of one text are both closed. */
  datatype ScanState =
    | Scanning(stack: string, inString: bool, escaped: bool)
    | Closed
    | Broken

  const START := Scanning("", false, false)

  function Opener(close: char): char {
    if close == '}' then '{' else '['
  }

  function Closer(open: char): char {
    if open == '{' then '}' else ']'
  }

  function Step(st: ScanState, ch: char): ScanState {
    if !st.Scanning? then
      Broken
    else if st.inString then
      if st.escaped then st.(escaped := false)
      else if ch == '\\' then st.(escaped := true)
      else if ch == '"' then st.(inString := false)
      else st
    else if ch == '"' then
      st.(inString := true)
    else if ch == '{' || ch == '[' then
      st.(stack := st.stack + [ch])
    else if ch == '}' || ch == ']' then
      if st.stack == "" || st.stack[|st.stack| - 1] != Opener(ch) then Broken
      else if |st.stack| == 1 then Closed
      else st.(stack := st.stack[..|st.stack| - 1])
    else
      st
  }

  function Run(st: ScanState, s: string): ScanState
    decreases s
  {
    if s == "" then st else Run(Step(st, s[0]), s[1..])
  }

  lemma {:induction false} RunConcat(st: ScanState, a: string, b: string)
    ensures Run(st, a + b) == Run(Run(st, a), b)
    decreases a
  {
    if a == "" {
      assert a + b == b;
    } else {
      assert (a + b)[1..] == a[1..] + b;
      RunConcat(Step(st, a[0]), a[1..], b);
    }
  }

  lemma RunTwo(st: ScanState, a: char, b: char)
    ensures Run(st, [a, b]) == Step(Step(st, a), b)
  {
    assert [a, b] == [a] + [b];
    RunConcat(st, [a], [b]);
  }

  lemma {:induction false} RunBroken(s: string)
    ensures Run(Broken, s) == Broken
  {
    if s != "" {
      RunBroken(s[1..]);
    }
  }

  lemma RunClosed(s: string)
    requires s != ""
    ensures Run(Closed, s) == Broken
  {
    RunBroken(s[1..]);
  }

  /** At most one prefix of a text is closed, so the first one is the only one. */
  lemma ClosedPrefixUnique(s: string, m: nat, n: nat)
    requires m <= |s| && n <= |s|
    requires Run(START, s[..m]) == Closed && Run(START, s[..n]) == Closed
    ensures m == n
  {
    if m < n {
      assert s[..n] == s[..m] + s[m..n];
      RunConcat(START, s[..m], s[m..n]);
      RunClosed(s[m..n]);
    } else if n < m {
      assert s[..m] == s[..n] + s[n..m];
      RunConcat(START, s[..n], s[n..m]);
      RunClosed(s[n..m]);
    }
  }

  lemma RunSnoc(st: ScanState, s: string, n: nat)
    requires n < |s|
    ensures Run(st, s[..n + 1]) == Step(Run(st, s[..n]), s[n])
  {
    assert s[..n + 1] == s[..n] + [s[n]];
    RunConcat(st, s[..n], [s[n]]);
  }

  // ---- Byte offsets ------------------------------------------------------------------------

  function Utf8Width(c: char): (n: nat)
    ensures 1 <= n <= 4
  {
    var v := c as int;
    if v < 0x80 then 1 else if v < 0x800 then 2 else if v < 0x1_0000 then 3 else 4
  }

  function Utf8Len(s: string): (n: nat)
    ensures n >= |s|
  {
    if s == "" then 0 else Utf8Width(s[0]) + Utf8Len(s[1..])
  }

  lemma {:induction false} Utf8LenConcat(a: string, b: string)
    ensures Utf8Len(a + b) == Utf8Len(a) + Utf8Len(b)
  {
    if a == "" {
      assert a + b == b;
    } else {
      assert (a + b)[1..] == a[1..] + b;
      Utf8LenConcat(a[1..], b);
    }
  }

  /** The slice `s[..offset]` of a string whose indices count bytes, for an offset on a character boundary. */
  function SliceTo(s: string, offset: nat): string {
    if s == "" || offset < Utf8Width(s[0]) then ""
    else [s[0]] + SliceTo(s[1..], offset - Utf8Width(s[0]))
  }

  lemma {:induction false} SliceToPrefix(a: string, b: string)
    ensures SliceTo(a + b, Utf8Len(a)) == a
  {
    if a == "" {
      assert a + b == b;
    } else {
      assert (a + b)[1..] == a[1..] + b;
      SliceToPrefix(a[1..], b);
    }
  }

  // ---- The scanner -------------------------------------------------------------------------

  /** `Some(k)` exactly when the input has a closed prefix, and then k is that prefix's length in bytes. */
  ghost predicate IsSegmentEnd(input: string, end: Option<nat>) {
    match end
    case None => forall n :: 0 <= n <= |input| ==> Run(START, input[..n]) != Closed
    case Some(k) => exists n :: 0 <= n <= |input| && Run(START, input[..n]) == Closed && k == Utf8Len(input[..n])
  }

  method FindJsonSegmentEnd(input: string) returns (end: Option<nat>)
    ensures IsSegmentEnd(input, end)
  {
    var stack := "";
    var inString, escaped := false, false;
    var offset := 0;
    var i := 0;
    while i < |input|
      invariant 0 <= i <= |input|
      invariant offset == Utf8Len(input[..i])
      invariant Run(START, input[..i]) == Scanning(stack, inString, escaped)
      invariant forall n :: 0 <= n <= i ==> Run(START, input[..n]) != Closed
    {
      var ch := input[i];
      RunSnoc(START, input, i);
      assert input[..i + 1] == input[..i] + [ch];
      Utf8LenConcat(input[..i], [ch]);
      var next := offset + Utf8Width(ch);
      if inString {
        if escaped {
          escaped := false;
        } else if ch == '\\' {
          escaped := true;
        } else if ch == '"' {
          inString := false;
        }
      } else if ch == '"' {
        inString := true;
      } else if ch == '{' || ch == '[' {
        stack := stack + [ch];
      } else if ch == '}' || ch == ']' {
        if stack == "" || stack[|stack| - 1] != Opener(ch) {
          BrokenPrefixNeverCloses(input, i + 1);
          return None;
        }
        stack := stack[..|stack| - 1];
        if stack == "" {
          return Some(next);
        }
      }
      offset := next;
      i := i + 1;
    }
    return None;
  }

  lemma BrokenPrefixNeverCloses(input: string, i: nat)
    requires i <= |input| && Run(START, input[..i]) == Broken
    ensures forall n :: i <= n <= |input| ==> Run(START, input[..n]) == Broken
  {
    forall n | i <= n <= |input|
      ensures Run(START, input[..n]) == Broken
    {
      assert input[..n] == input[..i] + input[i..n];
      RunConcat(START, input[..i], input[i..n]);
      RunBroken(input[i..n]);
    }
  }

  lemma SegmentEndIs(input: string, end: Option<nat>, n: nat)
    requires IsSegmentEnd(input, end)
    requires n <= |input| && Run(START, input[..n]) == Closed
    ensures end == Some(Utf8Len(input[..n]))
  {
    if end.Some? {
      var m :| 0 <= m <= |input| && Run(START, input[..m]) == Closed && end.value == Utf8Len(input[..m]);
      ClosedPrefixUnique(input, m, n);
    }
  }

  // ---- Bracketed items: what a closed prefix is ----------------------------------------------

  /** Text with balanced brackets: characters, string literals whose content does not count, and groups. */
  datatype Item =
    | Plain(c: char)
    | Literal(body: string)
    | Group(open: char, items: seq<Item>)

  predicate IsPlain(c: char) {
    c !in "\"{}[]"
  }

  /** The content of a closed string literal: no bare quote, and no backslash left dangling. */
  predicate IsStringBody(body: string) {
    if body == "" then true
    else if body[0] == '"' then false
    else if body[0] == '\\' then |body| >= 2 && IsStringBody(body[2..])
    else IsStringBody(body[1..])
  }

  predicate ItemOk(item: Item)
    decreases item, 1
  {
    match item
    case Plain(c) => IsPlain(c)
    case Literal(body) => IsStringBody(body)
    case Group(open, items) => (open == '{' || open == '[') && ItemsOk(items)
  }

  predicate ItemsOk(items: seq<Item>)
    decreases items, 0
  {
    items == [] || (ItemOk(items[0]) && ItemsOk(items[1..]))
  }

  function ItemText(item: Item): string
    decreases item, 1
  {
    match item
    case Plain(c) => [c]
    case Literal(body) => "\"" + body + "\""
    case Group(open, items) => [open] + ItemsText(items) + [Closer(open)]
  }

  function ItemsText(items: seq<Item>): string
    decreases items, 0
  {
    if items == [] then "" else ItemText(items[0]) + ItemsText(items[1..])
  }

  lemma {:induction false} ItemsConcat(a: seq<Item>, b: seq<Item>)
    ensures ItemsText(a + b) == ItemsText(a) + ItemsText(b)
    ensures ItemsOk(a + b) <==> ItemsOk(a) && ItemsOk(b)
  {
    if a == [] {
      assert a + b == b;
    } else {
      assert (a + b)[1..] == a[1..] + b;
      ItemsConcat(a[1..], b);
    }
  }

  lemma ItemsSnoc(items: seq<Item>, item: Item)
    requires ItemsOk(items) && ItemOk(item)
    ensures ItemsOk(items + [item]) && ItemsText(items + [item]) == ItemsText(items) + ItemText(item)
  {
    ItemsConcat(items, [item]);
  }

  lemma {:induction false} RunStringBody(st: ScanState, body: string)
    requires st.Scanning? && st.inString && !st.escaped
    requires IsStringBody(body)
    ensures Run(st, body) == st
  {
    if body == "" {
    } else if body[0] == '\\' {
      assert body == body[..2] + body[2..];
      RunConcat(st, body[..2], body[2..]);
      RunTwo(st, body[0], body[1]);
      assert body[..2] == [body[0], body[1]];
      RunStringBody(st, body[2..]);
    } else {
      RunStringBody(st, body[1..]);
    }
  }

  lemma {:induction false} RunItem(st: ScanState, item: Item)
    requires st.Scanning? && !st.inString && !st.escaped
    requires ItemOk(item)
    ensures Run(st, ItemText(item)) == if item.Group? && st.stack == "" then Closed else st
    decreases item, 1
  {
    match item
    case Plain(c) =>
      assert Run(st, [c]) == Step(st, c);
    case Literal(body) =>
      var inside := st.(inString := true);
      assert ItemText(item) == ("\"" + body) + "\"";
      RunConcat(st, "\"" + body, "\"");
      assert ("\"" + body)[1..] == body;
      RunStringBody(inside, body);
      assert Run(inside, "\"") == Step(inside, '"');
    case Group(open, items) =>
      var inside := st.(stack := st.stack + [open]);
      assert ItemText(item) == ([open] + ItemsText(items)) + [Closer(open)];
      RunConcat(st, [open] + ItemsText(items), [Closer(open)]);
      assert ([open] + ItemsText(items))[1..] == ItemsText(items);
      RunItems(inside, items);
      assert inside.stack[..|inside.stack| - 1] == st.stack;
      assert Run(inside, [Closer(open)]) == Step(inside, Closer(open));
  }

  lemma {:induction false} RunItems(st: ScanState, items: seq<Item>)
    requires st.Scanning? && !st.inString && !st.escaped && st.stack != ""
    requires ItemsOk(items)
    ensures Run(st, ItemsText(items)) == st
    decreases items, 0
  {
    if items != [] {
      RunConcat(st, ItemText(items[0]), ItemsText(items[1..]));
      RunItem(st, items[0]);
      RunItems(st, items[1..]);
    }
  }

  // ---- From the scan back to items -----------------------------------------------------------

  /** A group that is open at the end of a prefix, with the complete items read inside it so far. */
  datatype Frame = Frame(open: char, items: seq<Item>)

  predicate FramesOk(frames: seq<Frame>) {
    forall k :: 0 <= k < |frames| ==> (frames[k].open == '{' || frames[k].open == '[') && ItemsOk(frames[k].items)
  }

  function FramesText(frames: seq<Frame>): string {
    if frames == [] then ""
    else FramesText(frames[..|frames| - 1]) + [frames[|frames| - 1].open] + ItemsText(frames[|frames| - 1].items)
  }

  function FramesStack(frames: seq<Frame>): string {
    seq(|frames|, k requires 0 <= k < |frames| => frames[k].open)
  }

  /** The unfinished string literal at the end of a prefix. */
  predicate IsOpenBody(body: string, escaped: bool) {
    if escaped then body != "" && body[|body| - 1] == '\\' && IsStringBody(body[..|body| - 1])
    else IsStringBody(body)
  }

  /** Everything a prefix that is still open has been read as. */
  datatype Reading = Reading(before: seq<Item>, frames: seq<Frame>, body: string)

  ghost predicate Reads(r: Reading, prefix: string, st: ScanState) {
    && st.Scanning?
    && ItemsOk(r.before) && (forall k :: 0 <= k < |r.before| ==> !r.before[k].Group?)
    && FramesOk(r.frames) && FramesStack(r.frames) == st.stack
    && (if st.inString then IsOpenBody(r.body, st.escaped) else !st.escaped)
    && prefix == ItemsText(r.before) + FramesText(r.frames) + (if st.inString then "\"" + r.body else "")
  }

  function PushItem(r: Reading, item: Item): Reading {
    if r.frames == [] then Reading(r.before + [item], [], "")
    else
      var last := |r.frames| - 1;
      Reading(r.before, r.frames[last := Frame(r.frames[last].open, r.frames[last].items + [item])], "")
  }

  lemma PushFrame(frames: seq<Frame>, item: Item)
    requires frames != [] && FramesOk(frames) && ItemOk(item)
    ensures var last := |frames| - 1;
            var grown := frames[last := Frame(frames[last].open, frames[last].items + [item])];
            FramesOk(grown) && FramesText(grown) == FramesText(frames) + ItemText(item) && FramesStack(grown) == FramesStack(frames)
  {
    var last := |frames| - 1;
    var grown := frames[last := Frame(frames[last].open, frames[last].items + [item])];
    ItemsSnoc(frames[last].items, item);
    assert grown[..last] == frames[..last];
  }

  lemma PushItemReads(r: Reading, text: string, st: ScanState, item: Item)
    requires Reads(r, text, st) && !st.inString
    requires ItemOk(item) && (r.frames == [] ==> !item.Group?)
    ensures Reads(PushItem(r, item), text + ItemText(item), st)
  {
    if r.frames == [] {
      ItemsSnoc(r.before, item);
    } else {
      PushFrame(r.frames, item);
      assert text == ItemsText(r.before) + FramesText(r.frames);
    }
  }

  lemma {:induction false} StringBodySnoc(body: string, c: char)
    requires IsStringBody(body) && c != '"' && c != '\\'
    ensures IsStringBody(body + [c])
  {
    if body == "" {
    } else {
      var k := if body[0] == '\\' then 2 else 1;
      assert (body + [c])[k..] == body[k..] + [c];
      StringBodySnoc(body[k..], c);
    }
  }

  lemma {:induction false} StringBodyEscape(body: string, c: char)
    requires IsStringBody(body)
    ensures IsStringBody(body + ['\\', c])
  {
    if body == "" {
      assert ['\\', c][2..] == "";
    } else {
      var k := if body[0] == '\\' then 2 else 1;
      assert (body + ['\\', c])[k..] == body[k..] + ['\\', c];
      StringBodyEscape(body[k..], c);
    }
  }

  lemma ReadString(r: Reading, text: string, st: ScanState, ch: char) returns (r': Reading)
    requires Reads(r, text, st) && st.inString
    ensures Reads(r', text + [ch], Step(st, ch))
  {
    var grown := r.body + [ch];
    assert text + [ch] == ItemsText(r.before) + FramesText(r.frames) + ("\"" + grown);
    if st.escaped {
      var cut := r.body[..|r.body| - 1];
      StringBodyEscape(cut, ch);
      assert cut + ['\\', ch] == grown;
      r' := r.(body := grown);
    } else if ch == '\\' {
      assert grown[..|grown| - 1] == r.body;
      r' := r.(body := grown);
    } else if ch == '"' {
      var item := Literal(r.body);
      var outside := ItemsText(r.before) + FramesText(r.frames);
      assert text + [ch] == outside + ItemText(item);
      assert outside + "" == outside;
      PushItemReads(r, outside, st.(inString := false), item);
      r' := PushItem(r, item);
    } else {
      StringBodySnoc(r.body, ch);
      r' := r.(body := grown);
    }
  }

  lemma ReadOpen(r: Reading, text: string, st: ScanState, ch: char) returns (r': Reading)
    requires Reads(r, text, st) && !st.inString && (ch == '{' || ch == '[')
    ensures Reads(r', text + [ch], Step(st, ch))
  {
    r' := Reading(r.before, r.frames + [Frame(ch, [])], "");
    assert r'.frames[..|r.frames|] == r.frames;
    assert FramesText(r'.frames) == FramesText(r.frames) + [ch];
    assert FramesStack(r'.frames) == FramesStack(r.frames) + [ch];
  }

  lemma CloseGroup(r: Reading, text: string, st: ScanState, ch: char) returns (outer: Reading, outerText: string, group: Item)
    requires Reads(r, text, st) && !st.inString && (ch == '}' || ch == ']')
    requires st.stack != "" && st.stack[|st.stack| - 1] == Opener(ch)
    ensures Reads(outer, outerText, st.(stack := st.stack[..|st.stack| - 1]))
    ensures outer.before == r.before && outer.frames == r.frames[..|r.frames| - 1]
    ensures ItemOk(group) && group.Group? && text + [ch] == outerText + ItemText(group)
  {
    var last := |r.frames| - 1;
    outer := Reading(r.before, r.frames[..last], "");
    outerText := ItemsText(r.before) + FramesText(r.frames[..last]);
    group := Group(r.frames[last].open, r.frames[last].items);
    assert FramesStack(r.frames)[last] == r.frames[last].open;
    assert FramesStack(outer.frames) == FramesStack(r.frames)[..last];
    assert outerText + "" == outerText;
    assert text == outerText + ([group.open] + ItemsText(group.items));
  }

  /** Every open prefix reads as complete items, then open groups, then perhaps an open literal. */
  lemma {:induction false} ReadPrefix(input: string, n: nat) returns (r: Reading)
    requires n <= |input| && Run(START, input[..n]).Scanning?
    ensures Reads(r, input[..n], Run(START, input[..n]))
  {
    if n == 0 {
      r := Reading([], [], "");
      assert FramesStack([]) == "";
      return;
    }
    RunSnoc(START, input, n - 1);
    var st, ch := Run(START, input[..n - 1]), input[n - 1];
    assert input[..n] == input[..n - 1] + [ch];
    var r0 := ReadPrefix(input, n - 1);
    if st.inString {
      r := ReadString(r0, input[..n - 1], st, ch);
    } else if ch == '"' {
      r := r0.(body := "");
      assert input[..n] == ItemsText(r.before) + FramesText(r.frames) + ("\"" + "");
    } else if ch == '{' || ch == '[' {
      r := ReadOpen(r0, input[..n - 1], st, ch);
    } else if ch == '}' || ch == ']' {
      var outer, outerText, group := CloseGroup(r0, input[..n - 1], st, ch);
      assert |FramesStack(r0.frames)| == |r0.frames|;
      PushItemReads(outer, outerText, Step(st, ch), group);
      r := PushItem(outer, group);
    } else {
      PushItemReads(r0, input[..n - 1], st, Plain(ch));
      r := PushItem(r0, Plain(ch));
    }
  }

  /** A closed prefix is exactly: characters and string literals outside any bracket, then one balanced group. */
  ghost predicate IsClosedText(text: string) {
    exists before: seq<Item>, group: Item ::
      && ItemsOk(before) && (forall k :: 0 <= k < |before| ==> !before[k].Group?)
      && ItemOk(group) && group.Group?
      && text == ItemsText(before) + ItemText(group)
  }

  lemma {:induction false} RunLoose(before: seq<Item>)
    requires ItemsOk(before) && forall k :: 0 <= k < |before| ==> !before[k].Group?
    ensures Run(START, ItemsText(before)) == START
  {
    if before != [] {
      RunConcat(START, ItemText(before[0]), ItemsText(before[1..]));
      RunItem(START, before[0]);
      RunLoose(before[1..]);
    }
  }

  lemma ClosedTextCloses(before: seq<Item>, group: Item)
    requires ItemsOk(before) && forall k :: 0 <= k < |before| ==> !before[k].Group?
    requires ItemOk(group) && group.Group?
    ensures Run(START, ItemsText(before) + ItemText(group)) == Closed
  {
    RunLoose(before);
    RunConcat(START, ItemsText(before), ItemText(group));
    RunItem(START, group);
  }

  lemma ClosedIsClosedText(text: string)
    requires Run(START, text) == Closed
    ensures IsClosedText(text)
  {
    var n := |text| - 1;
    assert text[..n + 1] == text;
    RunSnoc(START, text, n);
    var st, ch := Run(START, text[..n]), text[n];
    var r := ReadPrefix(text, n);
    var outer, outerText, group := CloseGroup(r, text[..n], st, ch);
    assert |FramesStack(r.frames)| == |r.frames| == 1;
    assert outerText == ItemsText(outer.before);
    assert text == text[..n] + [ch];
  }

  lemma ClosedIffClosedText(text: string)
    ensures Run(START, text) == Closed <==> IsClosedText(text)
  {
    if IsClosedText(text) {
      var before: seq<Item>, group: Item :|
        && ItemsOk(before) && (forall k :: 0 <= k < |before| ==> !before[k].Group?)
        && ItemOk(group) && group.Group?
        && text == ItemsText(before) + ItemText(group);
      ClosedTextCloses(before, group);
    }
    if Run(START, text) == Closed {
      ClosedIsClosedText(text);
    }
  }

  /** The scanner finds an end exactly when some prefix is a balanced group after loose text, and then it
      reports that prefix, whatever follows. */
  lemma SegmentEndMeaning(input: string, end: Option<nat>, n: nat)
    requires IsSegmentEnd(input, end) && n <= |input|
    ensures IsClosedText(input[..n]) ==> end == Some(Utf8Len(input[..n]))
    ensures end == Some(Utf8Len(input[..n])) ==> IsClosedText(input[..n])
  {
    ClosedIffClosedText(input[..n]);
    if IsClosedText(input[..n]) {
      SegmentEndIs(input, end, n);
    }
    if end == Some(Utf8Len(input[..n])) {
      var m :| 0 <= m <= |input| && Run(START, input[..m]) == Closed && end.value == Utf8Len(input[..m]);
      SliceToPrefix(input[..m], input[m..]);
      SliceToPrefix(input[..n], input[n..]);
      assert input[..m] + input[m..] == input[..n] + input[n..];
    }
  }
}

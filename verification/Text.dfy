/**
 Strings as sequences of Unicode scalar values, with the operations of the Rust
 standard library that the modelled code calls.
 */
module Text {

  datatype Option<+T> = None | Some(value: T)

  datatype Result<+T, +E> = Ok(value: T) | Err(error: E)

  /** The Unicode `White_Space` property, which `char::is_whitespace` and `str::trim` use, as code point ranges. */
  const WHITE_SPACE := [
    (0x09, 0x0D), (0x20, 0x20), (0x85, 0x85), (0xA0, 0xA0), (0x1680, 0x1680), (0x2000, 0x200A),
    (0x2028, 0x2029), (0x202F, 0x202F), (0x205F, 0x205F), (0x3000, 0x3000)
  ]

  predicate InRanges(code: int, ranges: seq<(int, int)>) {
    ranges != [] && (ranges[0].0 <= code <= ranges[0].1 || InRanges(code, ranges[1..]))
  }

  predicate IsWhitespace(c: char) {
    InRanges(c as int, WHITE_SPACE)
  }

  lemma {:induction false} InRangesIff(code: int, ranges: seq<(int, int)>)
    ensures InRanges(code, ranges) <==> exists k :: 0 <= k < |ranges| && ranges[k].0 <= code <= ranges[k].1
  {
    if ranges != [] {
      InRangesIff(code, ranges[1..]);
      assert forall k :: 1 <= k < |ranges| ==> ranges[k] == ranges[1..][k - 1];
    }
  }

  /** White space and punctuation that the modelled code names. */
  lemma AsciiWhitespace(c: char)
    requires c as int < 0x80
    ensures IsWhitespace(c) <==> c == ' ' || '\t' <= c <= '\r'
  {
    InRangesIff(c as int, WHITE_SPACE);
    assert WHITE_SPACE[0] == (0x09, 0x0D) && WHITE_SPACE[1] == (0x20, 0x20);
  }

  /** The first index from `i` on that holds no white space, or `|s|`. */
  function SkipForward(s: string, i: nat): (k: nat)
    requires i <= |s|
    ensures i <= k <= |s| && (k < |s| ==> !IsWhitespace(s[k]))
    decreases |s| - i
  {
    if i < |s| && IsWhitespace(s[i]) then SkipForward(s, i + 1) else i
  }

  /** The end of the part of `s[..i]` that is left when white space is dropped from its end. */
  function SkipBackward(s: string, i: nat): (k: nat)
    requires i <= |s|
    ensures k <= i && (k > 0 ==> !IsWhitespace(s[k - 1]))
  {
    if i > 0 && IsWhitespace(s[i - 1]) then SkipBackward(s, i - 1) else i
  }

  function TrimStart(s: string): string {
    s[SkipForward(s, 0)..]
  }

  function TrimEnd(s: string): string {
    s[..SkipBackward(s, |s|)]
  }

  function Trim(s: string): string {
    TrimEnd(TrimStart(s))
  }

  /** A string of which trimming leaves nothing. */
  predicate IsBlank(s: string) {
    SkipForward(s, 0) == |s|
  }

  lemma BlankIffTrimEmpty(s: string)
    ensures IsBlank(s) <==> Trim(s) == ""
  {
    var t := TrimStart(s);
    assert t != "" ==> !IsWhitespace(t[0]);
    DropsWhitespace(t, |t|);
  }

  /** A string that neither starts nor ends with white space. */
  predicate IsTrimmed(s: string) {
    s != "" ==> !IsWhitespace(s[0]) && !IsWhitespace(s[|s| - 1])
  }

  lemma TrimIsTrimmed(s: string)
    ensures IsTrimmed(Trim(s))
    ensures Trim(s) == s <==> IsTrimmed(s)
  {
    var t := TrimStart(s);
    if Trim(s) != "" {
      assert Trim(s)[0] == t[0] == s[SkipForward(s, 0)];
    }
    if IsTrimmed(s) {
      assert t == s;
    }
  }

  lemma {:induction false} SkipsWhitespace(s: string, i: nat)
    requires i <= |s|
    ensures forall j :: i <= j < SkipForward(s, i) ==> IsWhitespace(s[j])
    decreases |s| - i
  {
    if i < |s| && IsWhitespace(s[i]) {
      SkipsWhitespace(s, i + 1);
    }
  }

  lemma {:induction false} DropsWhitespace(s: string, i: nat)
    requires i <= |s|
    ensures forall j :: SkipBackward(s, i) <= j < i ==> IsWhitespace(s[j])
  {
    if i > 0 && IsWhitespace(s[i - 1]) {
      DropsWhitespace(s, i - 1);
    }
  }

  lemma BlankIffAllWhitespace(s: string)
    ensures IsBlank(s) <==> forall i :: 0 <= i < |s| ==> IsWhitespace(s[i])
  {
    SkipsWhitespace(s, 0);
  }

  lemma TrimInfix(s: string) returns (from: nat)
    ensures from + |Trim(s)| <= |s| && Trim(s) == s[from..from + |Trim(s)|]
  {
    from := SkipForward(s, 0);
  }

  lemma {:induction false} SkipForwardBefore(a: string, v: string, i: nat)
    requires i <= |a| && v != "" && !IsWhitespace(v[0])
    ensures SkipForward(a + v, i) == SkipForward(a, i)
    decreases |a| - i
  {
    if i < |a| {
      SkipForwardBefore(a, v, i + 1);
    }
  }

  lemma {:induction false} SkipBackwardAfter(v: string, b: string, i: nat)
    requires i <= |b| && v != "" && !IsWhitespace(v[|v| - 1])
    ensures SkipBackward(v + b, |v| + i) == |v| + SkipBackward(b, i)
  {
    if i > 0 {
      SkipBackwardAfter(v, b, i - 1);
    }
  }

  lemma TrimStartBefore(prefix: string, tail: string)
    requires tail != "" && !IsWhitespace(tail[0])
    ensures TrimStart(prefix + tail) == TrimStart(prefix) + tail
  {
    SkipForwardBefore(prefix, tail, 0);
  }

  lemma TrimEndAfter(head: string, suffix: string)
    requires head != "" && !IsWhitespace(head[|head| - 1])
    ensures TrimEnd(head + suffix) == head + TrimEnd(suffix)
  {
    SkipBackwardAfter(head, suffix, |suffix|);
  }

  /** Trimming stops at visible text. */
  lemma TrimAround(prefix: string, v: string, suffix: string)
    requires v != "" && IsTrimmed(v)
    ensures Trim(prefix + v + suffix) == TrimStart(prefix) + v + TrimEnd(suffix)
  {
    var head := TrimStart(prefix) + v;
    assert prefix + v + suffix == prefix + (v + suffix);
    TrimStartBefore(prefix, v + suffix);
    assert TrimStart(prefix) + (v + suffix) == head + suffix;
    assert head[|head| - 1] == v[|v| - 1];
    TrimEndAfter(head, suffix);
  }

  lemma BlankTrims(s: string)
    requires IsBlank(s)
    ensures TrimStart(s) == "" && TrimEnd(s) == ""
  {
    BlankIffAllWhitespace(s);
  }

  lemma TrimPadded(before: string, v: string, after: string)
    requires IsBlank(before) && IsBlank(after) && v != "" && IsTrimmed(v)
    ensures Trim(before + v + after) == v
  {
    TrimAround(before, v, after);
    BlankTrims(before);
    BlankTrims(after);
  }

  /** A text that is not blank, around its visible part. */
  lemma TrimParts(s: string) returns (before: string, core: string, after: string)
    requires !IsBlank(s)
    ensures s == before + core + after && IsBlank(before) && IsBlank(after)
    ensures core == Trim(s) && core != "" && IsTrimmed(core)
  {
    var i := SkipForward(s, 0);
    var rest := s[i..];
    var k := SkipBackward(rest, |rest|);
    before, core, after := s[..i], rest[..k], rest[k..];
    LeadIsBlank(s);
    TailIsBlank(rest);
    BlankIffTrimEmpty(s);
    TrimIsTrimmed(s);
  }

  lemma LeadIsBlank(s: string)
    ensures IsBlank(s[..SkipForward(s, 0)])
  {
    SkipsWhitespace(s, 0);
    BlankIffAllWhitespace(s[..SkipForward(s, 0)]);
  }

  lemma TailIsBlank(s: string)
    ensures IsBlank(s[SkipBackward(s, |s|)..])
  {
    DropsWhitespace(s, |s|);
    BlankIffAllWhitespace(s[SkipBackward(s, |s|)..]);
  }

  lemma HalvesOf(before: string, core: string, after: string)
    requires IsBlank(before) && IsBlank(after) && core != "" && IsTrimmed(core)
    ensures TrimStart(before + core + after) == core + after && TrimEnd(before + core + after) == before + core
  {
    BlankTrims(before);
    BlankTrims(after);
    assert before + core + after == before + (core + after);
    TrimStartBefore(before, core + after);
    TrimEndAfter(before + core, after);
  }

  lemma HalfPadded(pad: string, core: string)
    requires IsBlank(pad) && core != "" && IsTrimmed(core)
    ensures Trim(core + pad) == core && Trim(pad + core) == core
  {
    TrimPadded("", core, pad);
    TrimPadded(pad, core, "");
    assert "" + core + pad == core + pad && pad + core + "" == pad + core;
  }

  lemma TrimHalves(s: string)
    ensures Trim(TrimStart(s)) == Trim(s) && Trim(TrimEnd(s)) == Trim(s)
  {
    if IsBlank(s) {
      BlankTrims(s);
      BlankIffTrimEmpty(s);
    } else {
      var before, core, after := TrimParts(s);
      HalvesOf(before, core, after);
      HalfPadded(after, core);
      HalfPadded(before, core);
    }
  }

  /** The first `c` from `i` on, or the length of the text. */
  function FindFrom(s: string, c: char, i: nat): (k: nat)
    requires i <= |s|
    ensures i <= k <= |s| && (k < |s| ==> s[k] == c) && forall j :: i <= j < k ==> s[j] != c
    decreases |s| - i
  {
    if i < |s| && s[i] != c then FindFrom(s, c, i + 1) else i
  }

  function Find(s: string, c: char): (k: nat)
    ensures k <= |s| && (k < |s| ==> s[k] == c) && forall j :: 0 <= j < k ==> s[j] != c
  {
    FindFrom(s, c, 0)
  }

  function StripCr(line: string): string {
    if line != "" && line[|line| - 1] == '\r' then line[..|line| - 1] else line
  }

  /** Lines that are all finished. */
  function FinishedLines(lines: seq<string>): string {
    if lines == [] then "" else lines[0] + "\n" + FinishedLines(lines[1..])
  }

  function WithoutCr(lines: seq<string>): seq<string> {
    seq(|lines|, i requires 0 <= i < |lines| => StripCr(lines[i]))
  }

  lemma WithoutCrFirst(lines: seq<string>)
    requires lines != []
    ensures WithoutCr(lines) == [StripCr(lines[0])] + WithoutCr(lines[1..])
  {
  }

  /** `str::find`: where the pattern first occurs from `i` on. */
  function FindText(s: string, pattern: string, i: nat): (r: Option<nat>)
    requires i <= |s|
    ensures r.Some? ==> i <= r.value && r.value + |pattern| <= |s| && s[r.value..r.value + |pattern|] == pattern
    decreases |s| - i
  {
    if i + |pattern| <= |s| && s[i..i + |pattern|] == pattern then Some(i)
    else if i == |s| then None
    else FindText(s, pattern, i + 1)
  }

  function ToAsciiLower(s: string): (r: string)
    ensures |r| == |s|
  {
    seq(|s|, i requires 0 <= i < |s| => if 'A' <= s[i] <= 'Z' then (s[i] as int + 32) as char else s[i])
  }
}

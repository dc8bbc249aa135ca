/**
 Streaming a completion from an OpenAI-compatible server (src/provider.rs:374-487,
 842-861): assembling lines from chunks, retrying, and the fallback that does not stream.
 */
module Streaming {
  import opened Basics
  import opened Text
  import opened Scripts

  /** The JSON library and the choice of the text in an event: no JSON, an event without text, or its delta. */
  type EventReader = string -> Result<Option<string>, ()>

  /** The server's answer to one attempt. A body is a list of chunks, each a whole number of characters; it may break
      off after them. */
  datatype Answer =
    | Failed(details: string)
    | Status(status: nat, body: string)
    | Body(chunks: seq<string>, broken: Option<string>)

  // ---- Events ------------------------------------------------------------------------------------

  function TrimStartMatches(s: string, pattern: string): string
    requires pattern != ""
  {
    if pattern <= s then TrimStartMatches(s[|pattern|..], pattern) else s
  }

  function ExtractStreamDelta(read: EventReader, line: string): Result<Option<string>, Error> {
    var trimmed := Trim(line);
    if trimmed == "" || !("data:" <= trimmed) then Ok(None)
    else
      var payload := Trim(TrimStartMatches(trimmed, "data:"));
      if payload == "" || payload == "[DONE]" then Ok(None)
      else
        match read(payload)
        case Ok(delta) => Ok(delta)
        case Err(_) => Err(BadEvent(payload))
  }

  /** An event line is a `data:` field: padding is immaterial, and what is read is the payload. */
  lemma EventLineIsRead(read: EventReader, before: string, gap: string, payload: string, after: string)
    requires IsBlank(before) && IsBlank(gap) && IsBlank(after) && payload != "" && IsTrimmed(payload)
    requires payload != "[DONE]" && !("data:" <= payload)
    ensures ExtractStreamDelta(read, before + ("data:" + gap + payload) + after)
         == if read(payload).Ok? then Ok(read(payload).value) else Err(BadEvent(payload))
  {
    var line := "data:" + gap + payload;
    AsciiWhitespace('d');
    assert line[0] == 'd' && line[|line| - 1] == payload[|payload| - 1];
    TrimPadded(before, line, after);
    FieldIsStripped(gap, payload);
    TrimPadded(gap, payload, "");
    assert gap + payload + "" == gap + payload;
  }

  /** The prefix may be repeated. */
  lemma RepeatedPrefix(read: EventReader, line: string)
    requires "data:" <= line && IsTrimmed(line)
    ensures ExtractStreamDelta(read, "data:" + line) == ExtractStreamDelta(read, line)
  {
    var longer := "data:" + line;
    AsciiWhitespace('d');
    assert longer[0] == 'd' && longer[|longer| - 1] == line[|line| - 1] && longer[|"data:"|..] == line;
    TrimIsTrimmed(longer);
    TrimIsTrimmed(line);
  }

  /** A line that is not a `data:` field, a field without payload and the end marker carry no event. */
  lemma OtherLinesAreIgnored(read: EventReader, line: string, before: string, gap: string, after: string)
    requires IsBlank(before) && IsBlank(gap) && IsBlank(after)
    ensures !("data:" <= Trim(line)) ==> ExtractStreamDelta(read, line) == Ok(None)
    ensures ExtractStreamDelta(read, before + "data:" + after) == Ok(None)
    ensures ExtractStreamDelta(read, before + ("data:" + gap + "[DONE]") + after) == Ok(None)
  {
    AsciiWhitespace('d');
    AsciiWhitespace(':');
    AsciiWhitespace('[');
    AsciiWhitespace(']');
    TrimPadded(before, "data:", after);
    assert TrimStartMatches("data:", "data:") == "" && Trim("") == "";
    var done := "data:" + gap + "[DONE]";
    assert done[0] == 'd' && done[|done| - 1] == ']';
    TrimPadded(before, done, after);
    FieldIsStripped(gap, "[DONE]");
    TrimPadded(gap, "[DONE]", "");
    assert gap + "[DONE]" + "" == gap + "[DONE]";
  }

  lemma FieldIsStripped(gap: string, payload: string)
    requires IsBlank(gap) && !("data:" <= payload)
    ensures TrimStartMatches("data:" + gap + payload, "data:") == gap + payload
  {
    var line, rest := "data:" + gap + payload, gap + payload;
    assert line[|"data:"|..] == rest;
    if gap != "" {
      BlankIffAllWhitespace(gap);
      AsciiWhitespace('d');
      assert rest[0] == gap[0] && IsWhitespace(gap[0]);
    }
    if gap == "" {
      assert rest == payload;
    }
  }

  function FirstNewline(text: string): (k: nat)
    ensures k <= |text| && (k < |text| ==> text[k] == '\n') && forall j :: 0 <= j < k ==> text[j] != '\n'
  {
    Find(text, '\n')
  }

  function CompleteLines(text: string): seq<string> {
    var k := FirstNewline(text);
    if k == |text| then [] else [StripCr(text[..k])] + CompleteLines(text[k + 1..])
  }

  /** What follows the last newline. */
  function Rest(text: string): string {
    var k := FirstNewline(text);
    if k == |text| then text else Rest(text[k + 1..])
  }

  /** The lines that are read from a whole body; its unfinished last line counts only when the body has ended. */
  function EventLines(text: string, ended: bool): seq<string> {
    CompleteLines(text) + (if ended && Trim(Rest(text)) != "" then [Trim(Rest(text))] else [])
  }

  lemma LineOff(line: string, more: string)
    requires forall i :: 0 <= i < |line| ==> line[i] != '\n'
    ensures var text := line + "\n" + more;
            CompleteLines(text) == [StripCr(line)] + CompleteLines(more) && Rest(text) == Rest(more)
  {
    var text, k := line + "\n" + more, |line|;
    assert text[k] == '\n' && forall i :: 0 <= i < k ==> text[i] == line[i];
    assert FirstNewline(text) == k;
    assert text[..k] == line && text[k + 1..] == more;
  }

  lemma NextLine(line: string, more: string, later: string, ended: bool)
    requires forall i :: 0 <= i < |line| ==> line[i] != '\n'
    ensures EventLines(line + "\n" + more + later, ended) == [StripCr(line)] + EventLines(more + later, ended)
  {
    assert line + "\n" + more + later == line + "\n" + (more + later);
    LineOff(line, more + later);
  }

  lemma NextBufferedLine(buffer: string, later: string, ended: bool)
    requires FirstNewline(buffer) < |buffer|
    ensures var k := FirstNewline(buffer);
            EventLines(buffer + later, ended) == [StripCr(buffer[..k])] + EventLines(buffer[k + 1..] + later, ended)
  {
    var k := FirstNewline(buffer);
    assert buffer == buffer[..k] + "\n" + buffer[k + 1..];
    NextLine(buffer[..k], buffer[k + 1..], later, ended);
  }

  lemma NoLine(text: string)
    requires FirstNewline(text) == |text|
    ensures CompleteLines(text) == [] && Rest(text) == text
  {
  }

  /** Splitting a text anywhere does not change its lines. */
  lemma {:induction false} LinesIncrementally(a: string, b: string)
    ensures CompleteLines(a + b) == CompleteLines(a) + CompleteLines(Rest(a) + b)
    ensures Rest(a + b) == Rest(Rest(a) + b)
    decreases |a|
  {
    var k := FirstNewline(a);
    if k == |a| {
      NoLine(a);
      assert CompleteLines(a) + CompleteLines(a + b) == CompleteLines(a + b);
    } else {
      var line, more := a[..k], a[k + 1..];
      LinesIncrementally(more, b);
      assert a == line + "\n" + more;
      LineOff(line, more);
      LineOffBefore(line, more, b);
      Prepend(StripCr(line), CompleteLines(more), CompleteLines(Rest(more) + b));
    }
  }

  lemma LineOffBefore(line: string, more: string, b: string)
    requires forall i :: 0 <= i < |line| ==> line[i] != '\n'
    ensures CompleteLines(line + "\n" + more + b) == [StripCr(line)] + CompleteLines(more + b)
    ensures Rest(line + "\n" + more + b) == Rest(more + b)
  {
    assert line + "\n" + more + b == line + "\n" + (more + b);
    LineOff(line, more + b);
  }

  lemma Prepend(line: string, a: seq<string>, b: seq<string>)
    ensures [line] + (a + b) == ([line] + a) + b
  {
  }

  /** A body is read as its finished lines, each without a carriage return at its end; and what follows them, trimmed, is
      one more line when the body has ended and that is not blank. */
  lemma {:induction false} BodyIsRead(lines: seq<string>, rest: string, ended: bool)
    requires forall i :: 0 <= i < |lines| ==> '\n' !in lines[i]
    requires '\n' !in rest
    ensures EventLines(FinishedLines(lines) + rest, ended) == WithoutCr(lines) + (if ended && !IsBlank(rest) then [Trim(rest)] else [])
  {
    BlankIffTrimEmpty(rest);
    if lines == [] {
      assert FinishedLines(lines) + rest == rest && FirstNewline(rest) == |rest|;
      NoLine(rest);
      assert WithoutCr(lines) == [];
    } else {
      BodyIsRead(lines[1..], rest, ended);
      NextLine(lines[0], FinishedLines(lines[1..]), rest, ended);
      WithoutCrFirst(lines);
      Associates([StripCr(lines[0])], WithoutCr(lines[1..]), if ended && !IsBlank(rest) then [Trim(rest)] else []);
    }
  }

  // ---- What the provider does to its sink --------------------------------------------------------

  /** Reads lines with the text assembled so far; without any text, goes on as `next`. */
  function LinesScript(read: EventReader, lines: seq<string>, assembled: string, broken: Option<string>, next: Script): Script {
    if lines == [] then
      if broken.Some? then Return(Err(BrokenRead(broken.value)))
      else if assembled != "" then Return(Ok(assembled))
      else next
    else
      match ExtractStreamDelta(read, lines[0])
      case Err(e) => Return(Err(e))
      case Ok(None) => LinesScript(read, lines[1..], assembled, broken, next)
      case Ok(Some(delta)) => Emit(delta, LinesScript(read, lines[1..], assembled + delta, broken, next), Return(Err(Rejected)))
  }

  function BodyLines(chunks: seq<string>, broken: Option<string>): seq<string> {
    EventLines(Concat(chunks), broken.None?)
  }

  function FallbackScript(last: Option<Error>, fallback: Reply): Script {
    match fallback
    case Ok(text) => if text != "" then Emit(text, Return(Ok(text)), Return(Err(Rejected))) else Return(Ok(text))
    case Err(e) => Return(Err(if last.Some? then last.value else e))
  }

  function StreamScript(read: EventReader, answers: seq<Answer>, last: Option<Error>, fallback: Reply): Script {
    if answers == [] then FallbackScript(last, fallback)
    else
      match answers[0]
      case Failed(details) => StreamScript(read, answers[1..], Some(Transport(details)), fallback)
      case Status(status, body) => StreamScript(read, answers[1..], Some(Http(status, body)), fallback)
      case Body(chunks, broken) =>
        LinesScript(read, BodyLines(chunks, broken), "", broken, StreamScript(read, answers[1..], Some(NoText), fallback))
  }

  // ---- The code ----------------------------------------------------------------------------------

  /** One line: its delta joins the assembled text once the sink has accepted it. */
  method ReadLine(read: EventReader, line: string, assembled: string, sink: StreamSink,
                  ghost rest: seq<string>, ghost broken: Option<string>, ghost next: Script) returns (r: Result<string, Error>)
    modifies sink
    ensures Play(LinesScript(read, [line] + rest, assembled, broken, next), old(sink.State()))
         == if r.Ok? then Play(LinesScript(read, rest, r.value, broken, next), sink.State()) else (sink.State(), Err(r.error))
  {
    assert ([line] + rest)[1..] == rest;
    match ExtractStreamDelta(read, line)
    case Err(e) => r := Err(e);
    case Ok(None) => r := Ok(assembled);
    case Ok(Some(delta)) =>
      var ok := sink.OnDelta(delta);
      r := if ok then Ok(assembled + delta) else Err(Rejected);
  }

  /** Takes the first line, without its line ending, out of the buffer. */
  method PopLine(buffer: string) returns (line: string, rest: string)
    requires FirstNewline(buffer) < |buffer|
    ensures line == StripCr(buffer[..FirstNewline(buffer)]) && rest == buffer[FirstNewline(buffer) + 1..]
  {
    var index := FirstNewline(buffer);
    line, rest := buffer[..index + 1], buffer[index + 1..];
    if line[|line| - 1] == '\n' {
      line := line[..|line| - 1];
    }
    assert line == buffer[..index];
    if line != "" && line[|line| - 1] == '\r' {
      line := line[..|line| - 1];
    }
  }

  /** The lines that a chunk completes; `later` is what is still to be read. */
  method ReadCompleteLines(read: EventReader, filled: string, assembled: string, sink: StreamSink,
                           ghost later: string, ghost broken: Option<string>, ghost next: Script)
    returns (r: Result<string, Error>, buffer: string)
    modifies sink
    ensures FirstNewline(buffer) == |buffer| || r.Err?
    ensures Play(LinesScript(read, EventLines(filled + later, broken.None?), assembled, broken, next), old(sink.State()))
         == if r.Ok? then Play(LinesScript(read, EventLines(buffer + later, broken.None?), r.value, broken, next), sink.State())
            else (sink.State(), Err(r.error))
  {
    buffer := filled;
    var text := assembled;
    while FirstNewline(buffer) < |buffer|
      invariant Play(LinesScript(read, EventLines(filled + later, broken.None?), assembled, broken, next), old(sink.State()))
             == Play(LinesScript(read, EventLines(buffer + later, broken.None?), text, broken, next), sink.State())
      decreases |buffer|
    {
      var line, rest := PopLine(buffer);
      NextBufferedLine(buffer, later, broken.None?);
      r := ReadLine(read, line, text, sink, EventLines(rest + later, broken.None?), broken, next);
      if r.Err? {
        return;
      }
      buffer, text := rest, r.value;
    }
    r := Ok(text);
  }

  lemma UnreadText(buffer: string, chunks: seq<string>, i: nat)
    requires i < |chunks|
    ensures buffer + Concat(chunks[i..]) == (buffer + chunks[i]) + Concat(chunks[i + 1..])
  {
    assert chunks[i..] == [chunks[i]] + chunks[i + 1..];
    ConcatAppend([chunks[i]], chunks[i + 1..]);
    ConcatOne(chunks[i]);
  }

  /** One body. It ends with the assembled text, which may be empty. */
  method ReadBody(read: EventReader, chunks: seq<string>, broken: Option<string>, sink: StreamSink, ghost next: Script)
    returns (r: Result<string, Error>)
    modifies sink
    ensures Play(LinesScript(read, BodyLines(chunks, broken), "", broken, next), old(sink.State()))
         == if r.Err? || r.value != "" then (sink.State(), r) else Play(next, sink.State())
  {
    var assembled, buffer := "", "";
    assert chunks[0..] == chunks && buffer + Concat(chunks) == Concat(chunks);
    for i := 0 to |chunks|
      invariant FirstNewline(buffer) == |buffer|
      invariant Play(LinesScript(read, BodyLines(chunks, broken), "", broken, next), old(sink.State()))
             == Play(LinesScript(read, EventLines(buffer + Concat(chunks[i..]), broken.None?), assembled, broken, next), sink.State())
    {
      UnreadText(buffer, chunks, i);
      r, buffer := ReadCompleteLines(read, buffer + chunks[i], assembled, sink, Concat(chunks[i + 1..]), broken, next);
      if r.Err? {
        return;
      }
      assembled := r.value;
    }
    assert chunks[|chunks|..] == [] && buffer + Concat([]) == buffer;
    NoLine(buffer);
    if broken.Some? {
      return Err(BrokenRead(broken.value));
    }
    var tail := Trim(buffer);
    if tail != "" {
      assert EventLines(buffer, true) == [tail] + [];
      r := ReadLine(read, tail, assembled, sink, [], broken, next);
      if r.Err? {
        return;
      }
      assembled := r.value;
    }
    return Ok(assembled);
  }

  /** The attempts are one more than the retries, and `fallback` is the outcome of the request that does not stream. */
  method CompleteStreamWithRetry(read: EventReader, maxRetries: nat, answers: seq<Answer>, fallback: Reply, sink: StreamSink)
    returns (reply: Reply)
    requires |answers| == maxRetries + 1
    modifies sink
    ensures (sink.State(), reply) == Play(StreamScript(read, answers, None, fallback), old(sink.State()))
  {
    ghost var goal := Play(StreamScript(read, answers, None, fallback), sink.State());
    var last: Option<Error> := None;
    assert answers[0..] == answers;
    for attempt := 0 to |answers|
      invariant goal == Play(StreamScript(read, answers[attempt..], last, fallback), sink.State())
    {
      assert answers[attempt..][1..] == answers[attempt + 1..];
      match answers[attempt]
      case Failed(details) => last := Some(Transport(details));
      case Status(status, body) => last := Some(Http(status, body));
      case Body(chunks, broken) =>
        var r := ReadBody(read, chunks, broken, sink, StreamScript(read, answers[attempt + 1..], Some(NoText), fallback));
        if r.Err? || r.value != "" {
          return r;
        }
        last := Some(NoText);
    }
    match fallback
    case Ok(text) =>
      if text != "" {
        var ok := sink.OnDelta(text);
        if !ok {
          return Err(Rejected);
        }
      }
      return Ok(text);
    case Err(e) =>
      return Err(if last.Some? then last.value else e);
  }

  // ---- What the user gets ------------------------------------------------------------------------

  predicate SameText(a: Answer, b: Answer) {
    if a.Body? && b.Body? then Concat(a.chunks) == Concat(b.chunks) && a.broken == b.broken else a == b
  }

  /** How the server cuts its bodies into chunks makes no difference. */
  lemma {:induction false} ChunkingIsIrrelevant(read: EventReader, a: seq<Answer>, b: seq<Answer>, last: Option<Error>, fallback: Reply)
    requires |a| == |b| && forall k :: 0 <= k < |a| ==> SameText(a[k], b[k])
    ensures StreamScript(read, a, last, fallback) == StreamScript(read, b, last, fallback)
  {
    if a != [] {
      assert SameText(a[0], b[0]);
      forall k | 0 <= k < |a| - 1
        ensures SameText(a[1..][k], b[1..][k])
      {
        assert SameText(a[k + 1], b[k + 1]);
      }
      var last' := match a[0] case Failed(details) => Transport(details) case Status(status, body) => Http(status, body) case Body(_, _) => NoText;
      ChunkingIsIrrelevant(read, a[1..], b[1..], Some(last'), fallback);
    }
  }

  lemma {:induction false} LinesHonest(read: EventReader, lines: seq<string>, assembled: string, broken: Option<string>, next: Script)
    requires IsHonest(next, "")
    ensures IsHonest(LinesScript(read, lines, assembled, broken, next), assembled)
  {
    if lines != [] {
      match ExtractStreamDelta(read, lines[0])
      case Err(_) =>
      case Ok(None) => LinesHonest(read, lines[1..], assembled, broken, next);
      case Ok(Some(delta)) => LinesHonest(read, lines[1..], assembled + delta, broken, next);
    }
  }

  /** Over all attempts and the fallback, a text that is returned is exactly the text that the sink accepted. */
  lemma {:induction false} StreamIsHonest(read: EventReader, answers: seq<Answer>, last: Option<Error>, fallback: Reply)
    ensures IsHonest(StreamScript(read, answers, last, fallback), "")
  {
    if answers != [] {
      match answers[0]
      case Failed(details) => StreamIsHonest(read, answers[1..], Some(Transport(details)), fallback);
      case Status(status, body) => StreamIsHonest(read, answers[1..], Some(Http(status, body)), fallback);
      case Body(chunks, broken) =>
        StreamIsHonest(read, answers[1..], Some(NoText), fallback);
        LinesHonest(read, BodyLines(chunks, broken), "", broken, StreamScript(read, answers[1..], Some(NoText), fallback));
    }
  }

  /** The deltas of some lines, up to the first event that is not JSON. */
  function Deltas(read: EventReader, lines: seq<string>): seq<string> {
    if lines == [] then []
    else
      match ExtractStreamDelta(read, lines[0])
      case Err(_) => []
      case Ok(None) => Deltas(read, lines[1..])
      case Ok(Some(delta)) => [delta] + Deltas(read, lines[1..])
  }

  /** What each attempt, and last the fallback, has to say. */
  function SourceDeltas(read: EventReader, answers: seq<Answer>, fallback: Reply, k: nat): seq<string> {
    if k < |answers| then
      match answers[k]
      case Failed(_) => []
      case Status(_, _) => []
      case Body(chunks, broken) => Deltas(read, BodyLines(chunks, broken))
    else if fallback.Ok? && fallback.value != "" then [fallback.value]
    else []
  }

  /** A course either ends within some deltas, or accepts them all, without any text, and goes on as `next`. */
  ghost predicate IsCourse(script: Script, s: SinkState, deltas: seq<string>, assembled: string, next: Script, n: nat, ends: bool, s': SinkState) {
    if ends then n <= |deltas| && AcceptedBy(script, s) == deltas[..n] && (Play(script, s).1.Ok? ==> n == |deltas|)
    else
      && assembled + Concat(deltas) == ""
      && AcceptedBy(script, s) == deltas + AcceptedBy(next, s') && Play(script, s).1 == Play(next, s').1
  }

  lemma CourseStep(script: Script, s: SinkState, deltas: seq<string>, assembled: string, next: Script, n: nat, ends: bool, s': SinkState)
    requires script.Emit? && Offer(s, script.delta).1
    requires IsCourse(script.whenAccepted, Offer(s, script.delta).0, deltas, assembled + script.delta, next, n, ends, s')
    ensures IsCourse(script, s, [script.delta] + deltas, assembled, next, n + 1, ends, s')
  {
    var all := [script.delta] + deltas;
    if ends {
      assert all[..n + 1] == [script.delta] + deltas[..n];
    } else {
      ConcatAppend([script.delta], deltas);
      ConcatOne(script.delta);
      assert all + AcceptedBy(next, s') == [script.delta] + (deltas + AcceptedBy(next, s'));
    }
  }

  lemma FailsAtOnce(script: Script, s: SinkState, deltas: seq<string>, assembled: string, next: Script) returns (n: nat, ends: bool, s': SinkState)
    requires AcceptedBy(script, s) == [] && Play(script, s).1.Err?
    ensures IsCourse(script, s, deltas, assembled, next, n, ends, s')
  {
    n, ends, s' := 0, true, s;
    assert deltas[..0] == [];
  }

  lemma {:induction false} LinesCourse(read: EventReader, lines: seq<string>, assembled: string, broken: Option<string>, next: Script, s: SinkState)
    returns (n: nat, ends: bool, s': SinkState)
    ensures IsCourse(LinesScript(read, lines, assembled, broken, next), s, Deltas(read, lines), assembled, next, n, ends, s')
  {
    var script, deltas := LinesScript(read, lines, assembled, broken, next), Deltas(read, lines);
    if lines == [] {
      n, ends, s' := 0, broken.Some? || assembled != "", s;
      assert ends || deltas + AcceptedBy(next, s) == AcceptedBy(next, s);
    } else if ExtractStreamDelta(read, lines[0]).Err? {
      n, ends, s' := FailsAtOnce(script, s, deltas, assembled, next);
    } else if ExtractStreamDelta(read, lines[0]).value.None? {
      n, ends, s' := LinesCourse(read, lines[1..], assembled, broken, next, s);
    } else if !Offer(s, script.delta).1 {
      n, ends, s' := FailsAtOnce(script, s, deltas, assembled, next);
    } else {
      n, ends, s' := LinesCourse(read, lines[1..], assembled + script.delta, broken, next, Offer(s, script.delta).0);
      CourseStep(script, s, Deltas(read, lines[1..]), assembled, next, n, ends, s');
      n := n + 1;
    }
  }

  /** The accepted text is a prefix of what one single source had to say, everything before it said nothing, and on
      success it is all of it. */
  ghost predicate IsFromSource(read: EventReader, answers: seq<Answer>, fallback: Reply, accepted: seq<string>, reply: Reply, k: nat, n: nat) {
    var deltas := SourceDeltas(read, answers, fallback, k);
    && k <= |answers| && n <= |deltas|
    && (forall j :: 0 <= j < k ==> Concat(SourceDeltas(read, answers, fallback, j)) == "")
    && Concat(accepted) == Concat(deltas[..n])
    && (reply.Ok? ==> reply.value == Concat(deltas[..n]) && n == |deltas|)
  }

  lemma SourceMoves(read: EventReader, answers: seq<Answer>, fallback: Reply, j: nat)
    requires answers != []
    ensures SourceDeltas(read, answers, fallback, j + 1) == SourceDeltas(read, answers[1..], fallback, j)
  {
  }

  lemma LaterSource(read: EventReader, answers: seq<Answer>, fallback: Reply, silent: seq<string>, accepted: seq<string>, reply: Reply, k: nat, n: nat)
    requires answers != [] && Concat(silent) == "" && Concat(SourceDeltas(read, answers, fallback, 0)) == ""
    requires IsFromSource(read, answers[1..], fallback, accepted, reply, k, n)
    ensures IsFromSource(read, answers, fallback, silent + accepted, reply, k + 1, n)
  {
    ConcatAppend(silent, accepted);
    SourceMoves(read, answers, fallback, k);
    forall j | 0 <= j < k + 1
      ensures Concat(SourceDeltas(read, answers, fallback, j)) == ""
    {
      if j > 0 {
        SourceMoves(read, answers, fallback, j - 1);
      }
    }
  }

  /** However often the request is repeated, the user sees the text of one single attempt, or of the fallback. */
  lemma {:induction false} TextFromOneSource(read: EventReader, answers: seq<Answer>, last: Option<Error>, fallback: Reply, s: SinkState)
    returns (k: nat, n: nat)
    ensures var script := StreamScript(read, answers, last, fallback);
            IsFromSource(read, answers, fallback, AcceptedBy(script, s), Play(script, s).1, k, n)
    decreases answers, 1
  {
    if answers == [] {
      FallbackSource(read, last, fallback, s);
      k, n := 0, |AcceptedBy(FallbackScript(last, fallback), s)|;
    } else {
      match answers[0]
      case Failed(details) => k, n := SilentSource(read, answers, last, fallback, s, Transport(details));
      case Status(status, body) => k, n := SilentSource(read, answers, last, fallback, s, Http(status, body));
      case Body(_, _) => k, n := BodySource(read, answers, last, fallback, s);
    }
  }

  lemma {:induction false} SilentSource(read: EventReader, answers: seq<Answer>, last: Option<Error>, fallback: Reply, s: SinkState, error: Error)
    returns (k: nat, n: nat)
    requires answers != [] && !answers[0].Body?
    requires StreamScript(read, answers, last, fallback) == StreamScript(read, answers[1..], Some(error), fallback)
    ensures var script := StreamScript(read, answers, last, fallback);
            IsFromSource(read, answers, fallback, AcceptedBy(script, s), Play(script, s).1, k, n)
    decreases answers, 0
  {
    var script := StreamScript(read, answers[1..], Some(error), fallback);
    k, n := TextFromOneSource(read, answers[1..], Some(error), fallback, s);
    LaterSource(read, answers, fallback, [], AcceptedBy(script, s), Play(script, s).1, k, n);
    assert [] + AcceptedBy(script, s) == AcceptedBy(script, s);
    k := k + 1;
  }

  lemma FallbackSource(read: EventReader, last: Option<Error>, fallback: Reply, s: SinkState)
    ensures var script := FallbackScript(last, fallback);
            IsFromSource(read, [], fallback, AcceptedBy(script, s), Play(script, s).1, 0, |AcceptedBy(script, s)|)
  {
    if fallback.Ok? {
      ConcatOne(fallback.value);
    }
  }

  lemma FirstSource(read: EventReader, answers: seq<Answer>, fallback: Reply, accepted: seq<string>, reply: Reply, n: nat)
    requires var deltas := SourceDeltas(read, answers, fallback, 0);
             n <= |deltas| && accepted == deltas[..n] && (reply.Ok? ==> n == |deltas| && reply.value == Concat(accepted))
    ensures IsFromSource(read, answers, fallback, accepted, reply, 0, n)
  {
  }

  /** A text that is returned is exactly the text that the sink accepted, over all attempts and the fallback. */
  lemma ReturnsAccepted(read: EventReader, answers: seq<Answer>, last: Option<Error>, fallback: Reply, s: SinkState)
    ensures var script := StreamScript(read, answers, last, fallback);
            Play(script, s).1.Ok? ==> Play(script, s).1.value == Concat(AcceptedBy(script, s))
  {
    StreamIsHonest(read, answers, last, fallback);
    HonestReturnsAccepted(StreamScript(read, answers, last, fallback), s, "");
  }

  lemma {:induction false} BodySource(read: EventReader, answers: seq<Answer>, last: Option<Error>, fallback: Reply, s: SinkState)
    returns (k: nat, n: nat)
    requires answers != [] && answers[0].Body?
    ensures var script := StreamScript(read, answers, last, fallback);
            IsFromSource(read, answers, fallback, AcceptedBy(script, s), Play(script, s).1, k, n)
    decreases answers, 0
  {
    var chunks, broken := answers[0].chunks, answers[0].broken;
    var script, next := StreamScript(read, answers, last, fallback), StreamScript(read, answers[1..], Some(NoText), fallback);
    var deltas := Deltas(read, BodyLines(chunks, broken));
    var m, ends, s' := LinesCourse(read, BodyLines(chunks, broken), "", broken, next, s);
    if ends {
      k, n := 0, m;
      ReturnsAccepted(read, answers, last, fallback, s);
      FirstSource(read, answers, fallback, AcceptedBy(script, s), Play(script, s).1, m);
    } else {
      k, n := TextFromOneSource(read, answers[1..], Some(NoText), fallback, s');
      LaterSource(read, answers, fallback, deltas, AcceptedBy(next, s'), Play(next, s').1, k, n);
      k := k + 1;
    }
  }

  // ---- Which attempt decides ---------------------------------------------------------------------

  ghost predicate NeverRejects(s: SinkState) {
    forall n :: !s.rejects(n)
  }

  /** The first event that is not JSON. */
  function BadEventOf(read: EventReader, lines: seq<string>): Option<Error> {
    if lines == [] then None
    else if ExtractStreamDelta(read, lines[0]).Err? then Some(ExtractStreamDelta(read, lines[0]).error)
    else BadEventOf(read, lines[1..])
  }

  /** How an attempt fails once it has begun to stream. */
  function FailureOf(read: EventReader, answer: Answer): Option<Error> {
    match answer
    case Failed(_) => None
    case Status(_, _) => None
    case Body(chunks, broken) =>
      var bad := BadEventOf(read, BodyLines(chunks, broken));
      if bad.Some? then bad else if broken.Some? then Some(BrokenRead(broken.value)) else None
  }

  function TextOf(read: EventReader, answer: Answer): string {
    match answer
    case Failed(_) => ""
    case Status(_, _) => ""
    case Body(chunks, broken) => Concat(Deltas(read, BodyLines(chunks, broken)))
  }

  /** What the user is told of an attempt that said nothing. */
  function ErrorOf(answer: Answer): Error {
    match answer
    case Failed(details) => Transport(details)
    case Status(status, body) => Http(status, body)
    case Body(_, _) => NoText
  }

  /** No connection, an error status, or a whole body without a bad event and without text. */
  predicate SaysNothing(read: EventReader, answer: Answer) {
    FailureOf(read, answer).None? && TextOf(read, answer) == ""
  }

  /** Reading lines into a sink that rejects nothing. */
  lemma {:induction false} LinesOutcome(read: EventReader, lines: seq<string>, assembled: string, broken: Option<string>, next: Script, s: SinkState)
    returns (s': SinkState)
    requires NeverRejects(s)
    ensures NeverRejects(s') && s'.accepted == s.accepted + Deltas(read, lines)
    ensures Play(LinesScript(read, lines, assembled, broken, next), s)
         == if BadEventOf(read, lines).Some? then (s', Err(BadEventOf(read, lines).value))
            else if broken.Some? then (s', Err(BrokenRead(broken.value)))
            else if assembled + Concat(Deltas(read, lines)) != "" then (s', Ok(assembled + Concat(Deltas(read, lines))))
            else Play(next, s')
  {
    if lines == [] || ExtractStreamDelta(read, lines[0]).Err? {
      s' := s;
      assert s.accepted + [] == s.accepted && assembled + "" == assembled;
    } else if ExtractStreamDelta(read, lines[0]).value.None? {
      s' := LinesOutcome(read, lines[1..], assembled, broken, next, s);
    } else {
      var delta, rest := ExtractStreamDelta(read, lines[0]).value.value, Deltas(read, lines[1..]);
      var (s1, ok) := Offer(s, delta);
      s' := LinesOutcome(read, lines[1..], assembled + delta, broken, next, s1);
      Associates(s.accepted, [delta], rest);
      ConcatAppend([delta], rest);
      ConcatOne(delta);
      Associates(assembled, delta, Concat(rest));
    }
  }

  /** One attempt: it ends the request with its failure or its text, or the request goes on with the next one. */
  lemma AttemptOutcome(read: EventReader, answers: seq<Answer>, last: Option<Error>, fallback: Reply, s: SinkState) returns (s': SinkState)
    requires answers != [] && NeverRejects(s)
    ensures NeverRejects(s') && s'.accepted == s.accepted + (if answers[0].Body? then Deltas(read, BodyLines(answers[0].chunks, answers[0].broken)) else [])
    ensures Play(StreamScript(read, answers, last, fallback), s)
         == if FailureOf(read, answers[0]).Some? then (s', Err(FailureOf(read, answers[0]).value))
            else if TextOf(read, answers[0]) != "" then (s', Ok(TextOf(read, answers[0])))
            else Play(StreamScript(read, answers[1..], Some(ErrorOf(answers[0])), fallback), s')
  {
    if answers[0].Body? {
      var chunks, broken := answers[0].chunks, answers[0].broken;
      s' := LinesOutcome(read, BodyLines(chunks, broken), "", broken, StreamScript(read, answers[1..], Some(NoText), fallback), s);
      assert "" + Concat(Deltas(read, BodyLines(chunks, broken))) == Concat(Deltas(read, BodyLines(chunks, broken)));
    } else {
      s' := s;
      assert s.accepted + [] == s.accepted;
    }
  }

  /** The k-th attempt, with what it delivers as one text. */
  lemma AttemptDelivers(read: EventReader, answers: seq<Answer>, last: Option<Error>, fallback: Reply, s: SinkState, k: nat)
    returns (s': SinkState)
    requires k < |answers| && NeverRejects(s)
    ensures NeverRejects(s') && Concat(s'.accepted) == Concat(s.accepted) + TextOf(read, answers[k])
    ensures Play(StreamScript(read, answers[k..], last, fallback), s)
         == if FailureOf(read, answers[k]).Some? then (s', Err(FailureOf(read, answers[k]).value))
            else if TextOf(read, answers[k]) != "" then (s', Ok(TextOf(read, answers[k])))
            else Play(StreamScript(read, answers[k + 1..], Some(ErrorOf(answers[k])), fallback), s')
  {
    var left := answers[k..];
    assert left[0] == answers[k] && left[1..] == answers[k + 1..];
    s' := AttemptOutcome(read, left, last, fallback, s);
    ConcatAppend(s.accepted, if left[0].Body? then Deltas(read, BodyLines(left[0].chunks, left[0].broken)) else []);
  }

  lemma SilentAttempt(read: EventReader, answers: seq<Answer>, last: Option<Error>, fallback: Reply, s: SinkState, k: nat)
    returns (s': SinkState)
    requires k < |answers| && NeverRejects(s) && SaysNothing(read, answers[k])
    ensures NeverRejects(s') && Concat(s'.accepted) == Concat(s.accepted)
    ensures Play(StreamScript(read, answers[k..], last, fallback), s)
         == Play(StreamScript(read, answers[k + 1..], Some(ErrorOf(answers[k])), fallback), s')
  {
    s' := AttemptDelivers(read, answers, last, fallback, s, k);
  }

  /** The error of the attempt before the k-th. */
  function ErrorBefore(answers: seq<Answer>, k: nat, last: Option<Error>): Option<Error>
    requires k <= |answers|
  {
    if k == 0 then last else Some(ErrorOf(answers[k - 1]))
  }

  /** Attempts that say nothing are passed over, and deliver nothing. */
  lemma {:induction false} SilentAttempts(read: EventReader, answers: seq<Answer>, last: Option<Error>, fallback: Reply, s: SinkState, k: nat)
    returns (s': SinkState)
    requires k <= |answers| && NeverRejects(s) && forall j :: 0 <= j < k ==> SaysNothing(read, answers[j])
    ensures NeverRejects(s') && Concat(s'.accepted) == Concat(s.accepted)
    ensures Play(StreamScript(read, answers, last, fallback), s)
         == Play(StreamScript(read, answers[k..], ErrorBefore(answers, k, last), fallback), s')
    decreases k
  {
    if k == 0 {
      s' := s;
      assert answers[0..] == answers;
    } else {
      var s1 := SilentAttempts(read, answers, last, fallback, s, k - 1);
      s' := SilentAttempt(read, answers, ErrorBefore(answers, k - 1, last), fallback, s1, k - 1);
    }
  }

  /** With a sink that rejects nothing, the first attempt that fails while streaming or says something decides: the request
      fails with that failure, or succeeds with that text, and exactly the text of that attempt is delivered. */
  lemma FirstSpeakingAttemptDecides(read: EventReader, answers: seq<Answer>, fallback: Reply, s: SinkState, k: nat)
    requires k < |answers| && NeverRejects(s) && !SaysNothing(read, answers[k])
    requires forall j :: 0 <= j < k ==> SaysNothing(read, answers[j])
    ensures var (s', reply) := Play(StreamScript(read, answers, None, fallback), s);
            && reply == (if FailureOf(read, answers[k]).Some? then Err(FailureOf(read, answers[k]).value) else Ok(TextOf(read, answers[k])))
            && Concat(s'.accepted) == Concat(s.accepted) + TextOf(read, answers[k])
  {
    var s1 := SilentAttempts(read, answers, None, fallback, s, k);
    var s2 := AttemptDelivers(read, answers, ErrorBefore(answers, k, None), fallback, s1, k);
  }

  /** If none does, the fallback decides: its text is delivered and returned, or the request fails with the error of the
      last attempt. */
  lemma FallbackDecides(read: EventReader, answers: seq<Answer>, fallback: Reply, s: SinkState)
    requires answers != [] && NeverRejects(s) && forall j :: 0 <= j < |answers| ==> SaysNothing(read, answers[j])
    ensures var (s', reply) := Play(StreamScript(read, answers, None, fallback), s);
            && reply == (if fallback.Ok? then fallback else Err(ErrorOf(answers[|answers| - 1])))
            && Concat(s'.accepted) == Concat(s.accepted) + (if fallback.Ok? then fallback.value else "")
  {
    var s1 := SilentAttempts(read, answers, None, fallback, s, |answers|);
    assert answers[|answers|..] == [];
    FallbackOutcome(Some(ErrorOf(answers[|answers| - 1])), fallback, s1);
  }

  lemma FallbackOutcome(last: Option<Error>, fallback: Reply, s: SinkState)
    requires NeverRejects(s) && last.Some?
    ensures var (s', reply) := Play(FallbackScript(last, fallback), s);
            && reply == (if fallback.Ok? then fallback else Err(last.value))
            && Concat(s'.accepted) == Concat(s.accepted) + (if fallback.Ok? then fallback.value else "")
  {
    if fallback.Ok? {
      ConcatAppend(s.accepted, [fallback.value]);
      ConcatOne(fallback.value);
    }
  }

  // ---- Rejections --------------------------------------------------------------------------------

  /** A script that gives up with this error at the first rejection. */
  predicate StopsWhenRejected(script: Script) {
    script.Emit? ==> script.whenRejected == Return(Err(Rejected)) && StopsWhenRejected(script.whenAccepted)
  }

  lemma {:induction false} LinesStop(read: EventReader, lines: seq<string>, assembled: string, broken: Option<string>, next: Script)
    requires StopsWhenRejected(next)
    ensures StopsWhenRejected(LinesScript(read, lines, assembled, broken, next))
  {
    if lines != [] && ExtractStreamDelta(read, lines[0]).Ok? {
      var delta := ExtractStreamDelta(read, lines[0]).value;
      LinesStop(read, lines[1..], if delta.Some? then assembled + delta.value else assembled, broken, next);
    }
  }

  lemma {:induction false} StreamStops(read: EventReader, answers: seq<Answer>, last: Option<Error>, fallback: Reply)
    ensures StopsWhenRejected(StreamScript(read, answers, last, fallback))
  {
    if answers != [] {
      StreamStops(read, answers[1..], Some(ErrorOf(answers[0])), fallback);
      if answers[0].Body? {
        LinesStop(read, BodyLines(answers[0].chunks, answers[0].broken), "", answers[0].broken, StreamScript(read, answers[1..], Some(NoText), fallback));
      }
    }
  }

  /** Nothing is offered after a rejection: either every offered delta was accepted, or all but the last, and then the
      request fails. */
  lemma {:induction false} RejectionEndsRequest(script: Script, s: SinkState)
    requires StopsWhenRejected(script)
    ensures var (s', reply) := Play(script, s);
            || s'.calls - s.calls == |AcceptedBy(script, s)|
            || (s'.calls - s.calls == |AcceptedBy(script, s)| + 1 && s.rejects(s'.calls - 1) && reply == Err(Rejected))
  {
    if script.Emit? && Offer(s, script.delta).1 {
      RejectionEndsRequest(script.whenAccepted, Offer(s, script.delta).0);
    }
  }
}

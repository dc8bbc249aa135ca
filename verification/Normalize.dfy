/**
 Rewriting chat messages into the shape that strict providers accept
 (src/provider.rs:740-807): dropping blanks, merging turns, and the compatibility set.
 */
module Normalize {
  import opened Basics
  import opened Text
  import opened Messages

  const SEPARATOR := "\n\n"
  const COMPAT_MESSAGE_LIMIT := 16
  const GUIDANCE_HEADER := "系统提示（兼容模式）:\n"

  // ---- Merging turns -----------------------------------------------------------------------------

  function Take(done: seq<Message>, msg: Message): seq<Message> {
    if IsBlank(msg.content) then done
    else if done != [] && Last(done).role == msg.role
    then Front(done) + [Message(msg.role, Last(done).content + SEPARATOR + msg.content)]
    else done + [msg]
  }

  function Normalized(messages: seq<Message>): seq<Message> {
    if messages == [] then [] else Take(Normalized(Front(messages)), Last(messages))
  }

  method NormalizeMessages(messages: seq<Message>) returns (normalized: seq<Message>)
    ensures normalized == Normalized(messages)
  {
    normalized := [];
    for i := 0 to |messages|
      invariant normalized == Normalized(messages[..i])
    {
      assert Front(messages[..i + 1]) == messages[..i];
      var msg := messages[i];
      if IsBlank(msg.content) {
        continue;
      }
      var n := |normalized|;
      if n > 0 && normalized[n - 1].role == msg.role {
        var last := normalized[n - 1];
        normalized := normalized[n - 1 := last.(content := last.content + SEPARATOR + msg.content)];
        assert normalized == normalized[..n - 1] + [Message(msg.role, last.content + SEPARATOR + msg.content)];
        continue;
      }
      normalized := normalized + [msg];
    }
    assert messages[..|messages|] == messages;
  }

  // ---- What merging means: maximal runs ----------------------------------------------------------

  function NonBlank(messages: seq<Message>): seq<Message> {
    if messages == [] then []
    else NonBlank(Front(messages)) + (if IsBlank(Last(messages).content) then [] else [Last(messages)])
  }

  function Flatten(runs: seq<seq<Message>>): seq<Message> {
    if runs == [] then [] else Flatten(Front(runs)) + Last(runs)
  }

  /** Messages of one role. */
  ghost predicate IsRun(run: seq<Message>) {
    run != [] && forall i :: 0 <= i < |run| ==> run[i].role == run[0].role
  }

  /** The parts of a message list, cut exactly where the role changes. */
  ghost predicate AreMaximalRuns(runs: seq<seq<Message>>) {
    runs == [] ||
    (&& IsRun(Last(runs))
     && AreMaximalRuns(Front(runs))
     && (|runs| > 1 ==> IsRun(Last(Front(runs))) && Last(Front(runs))[0].role != Last(runs)[0].role))
  }

  function Contents(run: seq<Message>): seq<string> {
    seq(|run|, i requires 0 <= i < |run| => run[i].content)
  }

  function Join(parts: seq<string>, separator: string): string {
    if parts == [] then ""
    else if |parts| == 1 then parts[0]
    else Join(Front(parts), separator) + separator + Last(parts)
  }

  function JoinedRun(run: seq<Message>): Message
    requires run != []
  {
    Message(run[0].role, Join(Contents(run), "\n\n"))
  }

  /** One message for each run. */
  ghost function Joined(runs: seq<seq<Message>>): seq<Message>
    requires AreMaximalRuns(runs)
  {
    if runs == [] then [] else Joined(Front(runs)) + [JoinedRun(Last(runs))]
  }

  lemma JoinedRunSnoc(run: seq<Message>, msg: Message)
    requires run != []
    ensures JoinedRun([msg]) == msg
    ensures JoinedRun(run + [msg]) == Message(run[0].role, JoinedRun(run).content + SEPARATOR + msg.content)
  {
    assert Contents([msg]) == [msg.content];
    assert Front(Contents(run + [msg])) == Contents(run);
  }

  lemma RunsSnoc(runs: seq<seq<Message>>, run: seq<Message>)
    requires AreMaximalRuns(runs) && IsRun(run) && (runs != [] ==> Last(runs)[0].role != run[0].role)
    ensures AreMaximalRuns(runs + [run]) && Flatten(runs + [run]) == Flatten(runs) + run
    ensures Joined(runs + [run]) == Joined(runs) + [JoinedRun(run)]
  {
    assert Front(runs + [run]) == runs;
  }

  lemma LastRunExtends(runs: seq<seq<Message>>, msg: Message) returns (runs': seq<seq<Message>>)
    requires AreMaximalRuns(runs) && runs != [] && Last(runs)[0].role == msg.role
    ensures AreMaximalRuns(runs') && Flatten(runs') == Flatten(runs) + [msg]
    ensures Joined(runs') == Joined(Front(runs)) + [Message(msg.role, JoinedRun(Last(runs)).content + SEPARATOR + msg.content)]
  {
    var run := Last(runs);
    JoinedRunSnoc(run, msg);
    RunsSnoc(Front(runs), run + [msg]);
    runs' := Front(runs) + [run + [msg]];
    assert Flatten(runs') == Flatten(Front(runs)) + run + [msg];
  }

  lemma TakeExtendsRuns(runs: seq<seq<Message>>, msg: Message) returns (runs': seq<seq<Message>>)
    requires AreMaximalRuns(runs) && !IsBlank(msg.content)
    ensures AreMaximalRuns(runs') && Joined(runs') == Take(Joined(runs), msg) && Flatten(runs') == Flatten(runs) + [msg]
  {
    if runs != [] && Last(runs)[0].role == msg.role {
      runs' := LastRunExtends(runs, msg);
      assert Front(Joined(runs)) == Joined(Front(runs));
    } else {
      JoinedRunSnoc([msg], msg);
      RunsSnoc(runs, [msg]);
      runs' := runs + [[msg]];
    }
  }

  /** Merging keeps every non-blank message, in order: each output message joins one maximal run of equal roles. */
  lemma {:induction false} NormalizedJoinsMaximalRuns(messages: seq<Message>) returns (runs: seq<seq<Message>>)
    ensures AreMaximalRuns(runs) && Flatten(runs) == NonBlank(messages) && Normalized(messages) == Joined(runs)
  {
    if messages == [] {
      runs := [];
    } else {
      runs := NormalizedJoinsMaximalRuns(Front(messages));
      if !IsBlank(Last(messages).content) {
        runs := TakeExtendsRuns(runs, Last(messages));
      }
    }
  }

  lemma RunEnds(rest: seq<Message>, run: seq<Message>)
    requires IsRun(run) && (rest != [] ==> Last(rest).role != run[0].role)
    ensures var s, n := rest + run, |run|;
            && 0 < n <= |s| && s[|s| - n..] == run && s[..|s| - n] == rest
            && (forall i :: |s| - n <= i < |s| ==> s[i].role == s[|s| - 1].role)
            && (n < |s| ==> s[|s| - n - 1].role != s[|s| - 1].role)
  {
    var s, n := rest + run, |run|;
    assert forall i :: |s| - n <= i < |s| ==> s[i] == run[i - (|s| - n)];
  }

  lemma FlattenEnds(runs: seq<seq<Message>>)
    requires AreMaximalRuns(runs) && runs != []
    ensures var s, n := Flatten(runs), |Last(runs)|;
            && 0 < n <= |s| && s[|s| - n..] == Last(runs) && s[..|s| - n] == Flatten(Front(runs))
            && (forall i :: |s| - n <= i < |s| ==> s[i].role == s[|s| - 1].role)
            && (n < |s| ==> s[|s| - n - 1].role != s[|s| - 1].role)
  {
    var rest := Front(runs);
    if rest != [] {
      var run := Last(rest);
      assert Flatten(rest) == Flatten(Front(rest)) + run;
      assert Last(Flatten(rest)) == run[|run| - 1];
    }
    RunEnds(Flatten(rest), Last(runs));
  }

  lemma LastRunNotShorter(a: seq<seq<Message>>, b: seq<seq<Message>>)
    requires AreMaximalRuns(a) && AreMaximalRuns(b) && a != [] && b != [] && Flatten(a) == Flatten(b)
    ensures |Last(a)| >= |Last(b)|
  {
    FlattenEnds(a);
    FlattenEnds(b);
  }

  lemma LastRunSame(a: seq<seq<Message>>, b: seq<seq<Message>>)
    requires AreMaximalRuns(a) && AreMaximalRuns(b) && a != [] && b != [] && Flatten(a) == Flatten(b)
    ensures Last(a) == Last(b) && Flatten(Front(a)) == Flatten(Front(b))
  {
    LastRunNotShorter(a, b);
    LastRunNotShorter(b, a);
    FlattenEnds(a);
    FlattenEnds(b);
  }

  /** There is only one way to cut a list into maximal runs, so the runs determine the result of merging. */
  lemma {:induction false} MaximalRunsUnique(a: seq<seq<Message>>, b: seq<seq<Message>>)
    requires AreMaximalRuns(a) && AreMaximalRuns(b) && Flatten(a) == Flatten(b)
    ensures a == b
  {
    if a == [] && b != [] {
      FlattenEnds(b);
    } else if b == [] && a != [] {
      FlattenEnds(a);
    } else if a != [] {
      LastRunSame(a, b);
      MaximalRunsUnique(Front(a), Front(b));
      assert a == Front(a) + [Last(a)] && b == Front(b) + [Last(b)];
    }
  }

  // ---- What strict providers accept --------------------------------------------------------------

  ghost predicate Alternates(messages: seq<Message>) {
    forall i :: 0 < i < |messages| ==> messages[i - 1].role != messages[i].role
  }

  ghost predicate NoneBlank(messages: seq<Message>) {
    forall i :: 0 <= i < |messages| ==> !IsBlank(messages[i].content)
  }

  lemma NonBlankExtends(before: string, text: string, after: string)
    requires !IsBlank(text)
    ensures !IsBlank(before + text + after)
  {
    BlankIffAllWhitespace(text);
    BlankIffAllWhitespace(before + text + after);
    var i :| 0 <= i < |text| && !IsWhitespace(text[i]);
    assert (before + text + after)[|before| + i] == text[i];
  }

  lemma {:induction false} NormalizedAlternates(messages: seq<Message>)
    ensures Alternates(Normalized(messages)) && NoneBlank(Normalized(messages))
  {
    if messages != [] {
      var done, msg := Normalized(Front(messages)), Last(messages);
      NormalizedAlternates(Front(messages));
      if !IsBlank(msg.content) && done != [] && Last(done).role == msg.role {
        NonBlankExtends(Last(done).content + SEPARATOR, msg.content, "");
        assert Last(done).content + SEPARATOR + msg.content + "" == Last(done).content + SEPARATOR + msg.content;
      }
    }
  }

  lemma ShapedFront(messages: seq<Message>)
    requires messages != [] && Alternates(messages) && NoneBlank(messages)
    ensures var front, last := Front(messages), Last(messages);
            && Alternates(front) && NoneBlank(front) && messages == front + [last]
            && !IsBlank(last.content) && (front != [] ==> Last(front).role != last.role)
  {
  }

  lemma {:induction false} NormalizedKeepsShaped(messages: seq<Message>)
    requires Alternates(messages) && NoneBlank(messages)
    ensures Normalized(messages) == messages
  {
    if messages != [] {
      ShapedFront(messages);
      NormalizedKeepsShaped(Front(messages));
    }
  }

  /** Only lists that need it are changed. */
  lemma NormalizedFixes(messages: seq<Message>)
    ensures Normalized(messages) == messages <==> Alternates(messages) && NoneBlank(messages)
  {
    NormalizedAlternates(messages);
    if Alternates(messages) && NoneBlank(messages) {
      NormalizedKeepsShaped(messages);
    }
  }

  lemma NormalizedIdempotent(messages: seq<Message>)
    ensures Normalized(Normalized(messages)) == Normalized(messages)
  {
    NormalizedAlternates(messages);
    NormalizedFixes(Normalized(messages));
  }

  lemma NormalizedSnoc(messages: seq<Message>, msg: Message)
    ensures Normalized(messages + [msg]) == Take(Normalized(messages), msg)
  {
    assert Front(messages + [msg]) == messages;
  }

  /** A conversation may be normalized as it grows. */
  lemma {:induction false} NormalizedIncrementally(a: seq<Message>, b: seq<Message>)
    ensures Normalized(a + b) == Normalized(Normalized(a) + b)
  {
    if b == [] {
      assert a + b == a && Normalized(a) + b == Normalized(a);
      NormalizedIdempotent(a);
    } else {
      var before, last := Front(b), Last(b);
      assert b == before + [last];
      NormalizedIncrementally(a, before);
      NormalizedSnoc(a + before, last);
      NormalizedSnoc(Normalized(a) + before, last);
      Associates(a, before, [last]);
      Associates(Normalized(a), before, [last]);
    }
  }

  // ---- The compatibility set ---------------------------------------------------------------------

  function NonSystem(messages: seq<Message>): seq<Message> {
    if messages == [] then []
    else NonSystem(Front(messages)) + (if Last(messages).role == System then [] else [Last(messages)])
  }

  function GuidanceParts(messages: seq<Message>): seq<string> {
    if messages == [] then []
    else
      var part := Trim(Last(messages).content);
      GuidanceParts(Front(messages)) + (if Last(messages).role == System && part != "" then [part] else [])
  }

  function Guidance(messages: seq<Message>): string {
    Join(GuidanceParts(messages), SEPARATOR)
  }

  function Newest(messages: seq<Message>, limit: nat): seq<Message> {
    if |messages| > limit then messages[|messages| - limit..] else messages
  }

  function LastNonBlankUser(messages: seq<Message>): Option<Message> {
    if messages == [] then None
    else if Last(messages).role == User && !IsBlank(Last(messages).content) then Some(Last(messages))
    else LastNonBlankUser(Front(messages))
  }

  function FirstUser(messages: seq<Message>): (i: nat)
    ensures i <= |messages| && (i < |messages| ==> messages[i].role == User)
    ensures forall k :: 0 <= k < i ==> messages[k].role != User
  {
    if messages == [] || messages[0].role == User then 0 else 1 + FirstUser(messages[1..])
  }

  method BuildCompatMessages(messages: seq<Message>) returns (filtered: seq<Message>)
    ensures filtered == Compat(messages)
  {
    var guidance := Guidance(messages);
    filtered := NormalizeMessages(NonSystem(messages));
    if |filtered| > COMPAT_MESSAGE_LIMIT {
      filtered := filtered[|filtered| - COMPAT_MESSAGE_LIMIT..];
    }
    if filtered == [] {
      var lastUser := LastNonBlankUser(messages);
      if lastUser.Some? {
        filtered := filtered + [lastUser.value];
      }
    }
    assert filtered == Kept(messages) by {
      NothingToFallBackTo(messages);
    }
    if guidance != "" {
      var folded := GUIDANCE_HEADER + guidance;
      var i := FirstUser(filtered);
      if i < |filtered| {
        filtered := filtered[i := filtered[i].(content := folded + SEPARATOR + filtered[i].content)];
      } else {
        filtered := [Message(User, folded)] + filtered;
      }
    }
  }

  /** The newest normalized turns that are not system messages. */
  function Kept(messages: seq<Message>): seq<Message> {
    Newest(Normalized(NonSystem(messages)), COMPAT_MESSAGE_LIMIT)
  }

  /** Those turns, with the system guidance folded into the first user turn, or in front when there is none. */
  function Compat(messages: seq<Message>): seq<Message> {
    var kept, guidance := Kept(messages), Guidance(messages);
    if guidance == "" then kept
    else
      var folded, i := GUIDANCE_HEADER + guidance, FirstUser(kept);
      if i < |kept| then kept[i := Message(User, folded + SEPARATOR + kept[i].content)]
      else [Message(User, folded)] + kept
  }

  lemma {:induction false} NormalizedEmptyIff(messages: seq<Message>)
    ensures Normalized(messages) == [] <==> forall i :: 0 <= i < |messages| ==> IsBlank(messages[i].content)
  {
    if messages != [] {
      NormalizedEmptyIff(Front(messages));
      assert forall i :: 0 <= i < |messages| - 1 ==> messages[i] == Front(messages)[i];
    }
  }

  lemma {:induction false} NonSystemMembers(messages: seq<Message>)
    ensures forall m :: m in NonSystem(messages) <==> m in messages && m.role != System
  {
    if messages != [] {
      NonSystemMembers(Front(messages));
      assert messages == Front(messages) + [Last(messages)];
    }
  }

  lemma {:induction false} LastNonBlankUserIsMember(messages: seq<Message>)
    ensures LastNonBlankUser(messages).Some? ==>
              LastNonBlankUser(messages).value in messages && LastNonBlankUser(messages).value.role == User
              && !IsBlank(LastNonBlankUser(messages).value.content)
  {
    if messages != [] {
      LastNonBlankUserIsMember(Front(messages));
    }
  }

  /** When nothing is kept there is no user message to fall back to: that fallback never adds anything. */
  lemma NothingToFallBackTo(messages: seq<Message>)
    ensures Kept(messages) == [] ==> LastNonBlankUser(messages) == None
  {
    LastNonBlankUserIsMember(messages);
    NonSystemMembers(messages);
    NormalizedEmptyIff(NonSystem(messages));
    if LastNonBlankUser(messages).Some? {
      assert LastNonBlankUser(messages).value in NonSystem(messages);
    }
  }

  lemma {:induction false} GuidanceStartsVisibly(messages: seq<Message>)
    ensures forall k :: 0 <= k < |GuidanceParts(messages)| ==> GuidanceParts(messages)[k] != "" && IsTrimmed(GuidanceParts(messages)[k])
  {
    if messages != [] {
      GuidanceStartsVisibly(Front(messages));
      TrimIsTrimmed(Last(messages).content);
    }
  }

  lemma FoldedIsVisible(guidance: string)
    ensures !IsBlank(GUIDANCE_HEADER + guidance)
  {
    var folded := GUIDANCE_HEADER + guidance;
    var n := |GUIDANCE_HEADER| - 2;
    assert folded[n] == ':';
    AsciiWhitespace(':');
    BlankIffAllWhitespace(folded);
  }

  lemma NewestAlternates(messages: seq<Message>, limit: nat)
    requires Alternates(messages) && NoneBlank(messages)
    ensures Alternates(Newest(messages, limit)) && NoneBlank(Newest(messages, limit)) && |Newest(messages, limit)| <= limit
  {
    if |messages| > limit {
      var from := |messages| - limit;
      var newest := messages[from..];
      forall i | 0 < i < |newest|
        ensures newest[i - 1].role != newest[i].role
      {
        assert newest[i - 1] == messages[from + i - 1] && newest[i] == messages[from + i];
      }
    }
  }

  lemma {:induction false} NormalizedAddsNoSystem(messages: seq<Message>)
    requires forall m :: m in messages ==> m.role != System
    ensures forall m :: m in Normalized(messages) ==> m.role != System
  {
    if messages != [] {
      assert Last(messages) in messages && forall m :: m in Front(messages) ==> m in messages;
      NormalizedAddsNoSystem(Front(messages));
    }
  }

  lemma KeptShape(messages: seq<Message>)
    ensures var kept := Kept(messages);
            && Alternates(kept) && NoneBlank(kept) && |kept| <= COMPAT_MESSAGE_LIMIT
            && (forall m :: m in kept ==> m.role != System)
            && (FirstUser(kept) == |kept| ==> |kept| <= 1)
            && (FirstUser(kept) < |kept| ==> FirstUser(kept) <= 1)
  {
    var turns, kept := Normalized(NonSystem(messages)), Kept(messages);
    NormalizedAlternates(NonSystem(messages));
    NewestAlternates(turns, COMPAT_MESSAGE_LIMIT);
    NonSystemMembers(messages);
    NormalizedAddsNoSystem(NonSystem(messages));
    assert forall m :: m in kept ==> m in turns;
    if |kept| > 1 {
      assert kept[0] in kept && kept[1] in kept && kept[0].role != kept[1].role;
      assert kept[0].role == User || kept[1].role == User;
    }
  }

  /** The compatibility set holds no system message, alternates, is nowhere blank and has at most sixteen messages:
      guidance is put in front of the cut only when at most one turn was kept. */
  lemma CompatShape(messages: seq<Message>)
    ensures var compat := Compat(messages);
            && Alternates(compat) && NoneBlank(compat) && |compat| <= COMPAT_MESSAGE_LIMIT
            && (forall m :: m in compat ==> m.role != System)
            && (|compat| > |Kept(messages)| ==> |compat| <= 2)
  {
    KeptShape(messages);
    var kept, guidance := Kept(messages), Guidance(messages);
    if guidance != "" {
      FoldedIsVisible(guidance);
      FoldingKeepsShape(kept, GUIDANCE_HEADER + guidance);
    }
  }

  lemma FoldedFirstKeepsShape(kept: seq<Message>, folded: string, i: nat)
    requires Alternates(kept) && NoneBlank(kept) && !IsBlank(folded) && i < |kept| && kept[i].role == User
    requires forall m :: m in kept ==> m.role != System
    ensures var compat := kept[i := Message(User, folded + SEPARATOR + kept[i].content)];
            Alternates(compat) && NoneBlank(compat) && forall m :: m in compat ==> m.role != System
  {
    NonBlankExtends("", folded, SEPARATOR + kept[i].content);
    Associates(folded, SEPARATOR, kept[i].content);
    assert "" + folded == folded;
  }

  lemma FoldedInFrontKeepsShape(kept: seq<Message>, folded: string)
    requires NoneBlank(kept) && !IsBlank(folded) && |kept| <= 1 && forall m :: m in kept ==> m.role == Assistant
    ensures var compat := [Message(User, folded)] + kept;
            Alternates(compat) && NoneBlank(compat) && forall m :: m in compat ==> m.role != System
  {
    if |kept| == 1 {
      assert kept[0] in kept;
    }
  }

  lemma FoldingKeepsShape(kept: seq<Message>, folded: string)
    requires Alternates(kept) && NoneBlank(kept) && !IsBlank(folded) && forall m :: m in kept ==> m.role != System
    requires FirstUser(kept) == |kept| ==> |kept| <= 1
    ensures var i := FirstUser(kept);
            var compat := if i < |kept| then kept[i := Message(User, folded + SEPARATOR + kept[i].content)] else [Message(User, folded)] + kept;
            Alternates(compat) && NoneBlank(compat) && forall m :: m in compat ==> m.role != System
  {
    var i := FirstUser(kept);
    if i < |kept| {
      FoldedFirstKeepsShape(kept, folded, i);
    } else {
      FoldedInFrontKeepsShape(kept, folded);
    }
  }

  lemma {:induction false} JoinEmptyIff(parts: seq<string>)
    requires forall k :: 0 <= k < |parts| ==> parts[k] != ""
    ensures Join(parts, SEPARATOR) == "" <==> parts == []
  {
  }

  lemma {:induction false} NoGuidanceWithoutSystem(messages: seq<Message>)
    requires forall m :: m in messages ==> m.role != System
    ensures NonSystem(messages) == messages && GuidanceParts(messages) == []
  {
    if messages != [] {
      var front, last := Front(messages), Last(messages);
      assert messages == front + [last];
      assert last in messages;
      forall m | m in front
        ensures m.role != System
      {
        assert m in messages;
      }
      NoGuidanceWithoutSystem(front);
    }
  }

  /** A list that the compatibility rewriting leaves alone is exactly one of that shape, so what it returns is never
      rewritten again. */
  lemma CompatFixes(messages: seq<Message>)
    ensures Compat(messages) == messages <==>
            && Alternates(messages) && NoneBlank(messages) && |messages| <= COMPAT_MESSAGE_LIMIT
            && (forall m :: m in messages ==> m.role != System)
    ensures Compat(Compat(messages)) == Compat(messages)
  {
    CompatShape(messages);
    CompatKeepsShaped(messages);
    CompatKeepsShaped(Compat(messages));
  }

  lemma CompatKeepsShaped(messages: seq<Message>)
    ensures Alternates(messages) && NoneBlank(messages) && |messages| <= COMPAT_MESSAGE_LIMIT && (forall m :: m in messages ==> m.role != System) ==>
              Compat(messages) == messages
  {
    if forall m :: m in messages ==> m.role != System {
      NoGuidanceWithoutSystem(messages);
      NormalizedFixes(messages);
    }
  }

  /** Apart from the guidance, the compatibility set is the newest turns; and it is empty only when every message was
      blank. */
  lemma CompatKeepsTurns(messages: seq<Message>)
    ensures var compat, kept, folded := Compat(messages), Kept(messages), "系统提示（兼容模式）:\n" + Guidance(messages);
            || (Guidance(messages) == "" && compat == kept)
            || (|kept| <= 1 && compat == [Message(User, folded)] + kept)
            || (exists i :: 0 <= i <= 1 && i < |kept| && kept[i].role == User
                  && compat == kept[..i] + [Message(User, folded + SEPARATOR + kept[i].content)] + kept[i + 1..])
    ensures Compat(messages) == [] <==> forall i :: 0 <= i < |messages| ==> IsBlank(messages[i].content)
  {
    KeptShape(messages);
    CompatEmptyIff(messages);
    var kept, i := Kept(messages), FirstUser(Kept(messages));
    if Guidance(messages) != "" && i < |kept| {
      var folded := GUIDANCE_HEADER + Guidance(messages);
      assert Compat(messages) == kept[..i] + [Message(User, folded + SEPARATOR + kept[i].content)] + kept[i + 1..];
    }
  }

  lemma MembersSnoc(messages: seq<Message>)
    requires messages != []
    ensures forall m :: m in messages <==> m in Front(messages) || m == Last(messages)
  {
    assert messages == Front(messages) + [Last(messages)];
  }

  lemma {:induction false} GuidanceEmptyIff(messages: seq<Message>)
    ensures GuidanceParts(messages) == [] <==> forall m :: m in messages && m.role == System ==> IsBlank(m.content)
  {
    if messages != [] {
      GuidanceEmptyIff(Front(messages));
      MembersSnoc(messages);
      BlankIffTrimEmpty(Last(messages).content);
    }
  }

  lemma CompatEmptyIff(messages: seq<Message>)
    ensures Compat(messages) == [] <==> forall i :: 0 <= i < |messages| ==> IsBlank(messages[i].content)
  {
    var turns := NonSystem(messages);
    NormalizedEmptyIff(turns);
    NonSystemMembers(messages);
    GuidanceEmptyIff(messages);
    GuidanceStartsVisibly(messages);
    JoinEmptyIff(GuidanceParts(messages));
    assert (forall i :: 0 <= i < |turns| ==> IsBlank(turns[i].content)) <==> (forall m :: m in turns ==> IsBlank(m.content));
    assert (forall i :: 0 <= i < |messages| ==> IsBlank(messages[i].content)) <==> (forall m :: m in messages ==> IsBlank(m.content));
  }

  // ---- What goes into the compatibility set ------------------------------------------------------

  function IsTurn(messages: seq<Message>): nat -> bool {
    (i: nat) => i < |messages| && messages[i].role != System
  }

  function IsGuidance(messages: seq<Message>): nat -> bool {
    (i: nat) => i < |messages| && messages[i].role == System && !IsBlank(messages[i].content)
  }

  lemma PrefixEnds(messages: seq<Message>, n: nat)
    requires 0 < n <= |messages|
    ensures messages[..n] != [] && Front(messages[..n]) == messages[..n - 1] && Last(messages[..n]) == messages[n - 1]
  {
  }

  lemma NonSystemNext(messages: seq<Message>, n: nat)
    requires 0 < n <= |messages|
    ensures NonSystem(messages[..n]) == NonSystem(messages[..n - 1]) + (if messages[n - 1].role == System then [] else [messages[n - 1]])
  {
    PrefixEnds(messages, n);
  }

  lemma GuidanceNext(messages: seq<Message>, n: nat)
    requires 0 < n <= |messages|
    ensures GuidanceParts(messages[..n]) == GuidanceParts(messages[..n - 1])
              + (if messages[n - 1].role == System && !IsBlank(messages[n - 1].content) then [Trim(messages[n - 1].content)] else [])
  {
    PrefixEnds(messages, n);
    BlankIffTrimEmpty(messages[n - 1].content);
  }

  lemma {:induction false} NonSystemUpTo(messages: seq<Message>, n: nat) returns (at: seq<nat>)
    requires n <= |messages|
    ensures Enumerates(at, n, IsTurn(messages)) && |at| == |NonSystem(messages[..n])|
    ensures forall k :: 0 <= k < |at| ==> NonSystem(messages[..n])[k] == messages[at[k]]
  {
    if n == 0 {
      at := [];
    } else {
      var before := NonSystemUpTo(messages, n - 1);
      NonSystemNext(messages, n);
      at := EnumeratesNext(before, n - 1, IsTurn(messages));
    }
  }

  lemma {:induction false} GuidanceUpTo(messages: seq<Message>, n: nat) returns (at: seq<nat>)
    requires n <= |messages|
    ensures Enumerates(at, n, IsGuidance(messages)) && |at| == |GuidanceParts(messages[..n])|
    ensures forall k :: 0 <= k < |at| ==> GuidanceParts(messages[..n])[k] == Trim(messages[at[k]].content)
  {
    if n == 0 {
      at := [];
    } else {
      var before := GuidanceUpTo(messages, n - 1);
      GuidanceNext(messages, n);
      at := EnumeratesNext(before, n - 1, IsGuidance(messages));
    }
  }

  /** The turns are all messages that are not system messages, in their order. */
  lemma TurnsAre(messages: seq<Message>) returns (at: seq<nat>)
    ensures Enumerates(at, |messages|, IsTurn(messages)) && |at| == |NonSystem(messages)|
    ensures forall k :: 0 <= k < |at| ==> NonSystem(messages)[k] == messages[at[k]]
  {
    at := NonSystemUpTo(messages, |messages|);
    assert messages[..|messages|] == messages;
  }

  /** The guidance is all non-blank system messages, trimmed, in their order. */
  lemma GuidancePartsAre(messages: seq<Message>) returns (at: seq<nat>)
    ensures Enumerates(at, |messages|, IsGuidance(messages)) && |at| == |GuidanceParts(messages)|
    ensures forall k :: 0 <= k < |at| ==> GuidanceParts(messages)[k] == Trim(messages[at[k]].content)
  {
    at := GuidanceUpTo(messages, |messages|);
    assert messages[..|messages|] == messages;
  }

  /** What is kept are the last sixteen merged turns, or all of them. */
  lemma KeptAre(messages: seq<Message>)
    ensures var turns, kept := Normalized(NonSystem(messages)), Kept(messages);
            |kept| == (if |turns| < 16 then |turns| else 16) && turns[|turns| - |kept|..] == kept
  {
  }

  /** Joining puts a blank line between two parts. */
  lemma JoinIs(a: string, parts: seq<string>)
    requires parts != []
    ensures Join([a], SEPARATOR) == a && Join(parts + [a], SEPARATOR) == Join(parts, SEPARATOR) + "\n\n" + a
  {
    assert Front(parts + [a]) == parts;
  }
}

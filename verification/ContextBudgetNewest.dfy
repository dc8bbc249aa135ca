/**
 When the context budgeter (src/service.rs:1374-1534) keeps the newest message, and
 when an older one displaces it.
 */
module ContextBudgetNewest {
  import opened Basics
  import opened Text
  import opened Messages
  import opened ContextBudget
  import opened ContextBudgetCost

  /** The result ends with the newest message, whole or cut short. */
  ghost predicate KeepsNewest(messages: seq<Message>, out: seq<Message>)
    requires messages != []
  {
    out != [] && (Last(out) == Last(messages) || IsShortened(Last(messages), Last(out)))
  }

  /** What is known of the parser of numbers: it reads a digit, and does not read nothing. */
  predicate ReadsNumbers(isNumber: string -> bool) {
    isNumber("1") && !isNumber("")
  }

  ghost predicate AlwaysKeepsNewest(plan: Plan, isNumber: string -> bool) {
    forall messages: seq<Message>, candidates: seq<nat> :: messages != [] && AreCandidates(messages, candidates, isNumber) ==>
      KeepsNewest(messages, Budgeted(messages, candidates, plan))
  }

  /** Nothing is dropped, or nothing fits at all, or enough is always left to shorten the newest message into: a
      recalled memory costs eight tokens at least, and memories use up no more than their share. */
  predicate LeavesRoomForNewest(plan: Plan) {
    || plan.windowTokens == 0
    || plan.inputBudget < 5
    || (plan.minRecent >= 1 && plan.inputBudget > 12 && (plan.memoryBudget < 8 || plan.inputBudget - plan.memoryBudget > 12))
  }

  // ---- Kept --------------------------------------------------------------------------------------

  lemma MemoryIsLong(m: Message, isNumber: string -> bool)
    requires ReadsNumbers(isNumber) && IsMemory(m, isNumber)
    ensures Estimate(m) >= 8
  {
    var k := FindText(m.content, SCORE_MARKER, 0).value;
    var text := m.content[k + |SCORE_MARKER|..];
    var end := TokenEnd(text, 0);
    assert text[..0] == "" && Trim("") == "";
    assert |SCORE_MARKER| == 14;
  }

  lemma {:induction false} NoMemoryFits(messages: seq<Message>, candidates: seq<nat>, memoryBudget: nat)
    requires AreIndices(messages, candidates)
    requires forall n :: 0 <= n < |candidates| ==> Estimate(messages[candidates[n]]) > memoryBudget
    ensures MemoryPass(messages, candidates, memoryBudget) == Start(|messages|)
  {
    if candidates != [] {
      NoMemoryFits(messages, candidates[..|candidates| - 1], memoryBudget);
    }
  }

  lemma {:induction false} RecentPassKeeps(messages: seq<Message>, s: Selection, n: nat, limits: Limits, i: nat)
    requires n <= |messages| == |s.selected| && i < |messages| && s.selected[i]
    ensures RecentPass(messages, s, n, limits).selected[i]
    decreases n
  {
    if n > 0 {
      if Fits(messages, s, n - 1, limits) {
        RecentPassKeeps(messages, KeepRecent(messages, s, n - 1), n - 1, limits, i);
      } else if WorthShortening(s, n - 1, limits) {
        RecentPassKeeps(messages, Shorten(messages, s, n - 1, limits), n - 1, limits, i);
      } else {
        RecentPassKeeps(messages, s, n - 1, limits, i);
      }
    }
  }

  lemma {:induction false} NothingFits(messages: seq<Message>, s: Selection, n: nat, limits: Limits)
    requires n <= |messages| == |s.selected| && limits.inputBudget < 5
    ensures RecentPass(messages, s, n, limits) == s
    decreases n
  {
    if n > 0 {
      NothingFits(messages, s, n - 1, limits);
    }
  }

  lemma MemoriesLeaveRoom(messages: seq<Message>, candidates: seq<nat>, plan: Plan, isNumber: string -> bool)
    requires ReadsNumbers(isNumber) && AreCandidates(messages, candidates, isNumber)
    requires plan.inputBudget > 12 && (plan.memoryBudget < 8 || plan.inputBudget - plan.memoryBudget > 12)
    ensures plan.inputBudget - MemoryPass(messages, candidates, plan.memoryBudget).used > 12
  {
    if plan.memoryBudget < 8 {
      forall c | 0 <= c < |candidates|
        ensures Estimate(messages[candidates[c]]) > plan.memoryBudget
      {
        assert candidates[c] in candidates;
        MemoryIsLong(messages[candidates[c]], isNumber);
      }
      NoMemoryFits(messages, candidates, plan.memoryBudget);
    } else {
      MemoryPassWithin(messages, candidates, plan.memoryBudget);
    }
  }

  lemma FirstStep(messages: seq<Message>, s: Selection, limits: Limits) returns (s': Selection)
    requires messages != [] && |messages| == |s.selected| && s.recentKept < limits.minRecent && limits.inputBudget - s.used > 12
    ensures |s'.selected| == |s.selected| && s'.selected[|messages| - 1]
    ensures RecentPass(messages, s, |messages|, limits) in {s', RecentPass(messages, s', |messages| - 1, limits)}
  {
    var idx := |messages| - 1;
    s' := if s.selected[idx] then s else if Fits(messages, s, idx, limits) then KeepRecent(messages, s, idx) else Shorten(messages, s, idx, limits);
  }

  lemma NewestTaken(messages: seq<Message>, s: Selection, limits: Limits)
    requires messages != [] && |messages| == |s.selected| && s.recentKept < limits.minRecent && limits.inputBudget - s.used > 12
    ensures RecentPass(messages, s, |messages|, limits).selected[|messages| - 1]
  {
    var s' := FirstStep(messages, s, limits);
    RecentPassKeeps(messages, s', |messages| - 1, limits, |messages| - 1);
  }

  ghost predicate OnlyShortens(messages: seq<Message>, s: Selection) {
    forall k :: k in s.replacements ==> k < |messages| && IsShortened(messages[k], s.replacements[k])
  }

  lemma TruncateShortens(m: Message, maxTokens: nat)
    requires 12 < maxTokens < Estimate(m)
    ensures IsShortened(m, Truncate(m, maxTokens))
  {
    var k := Min(Max(SaturatingSub(Min(maxTokens * 4, USIZE_MAX), 12), 8), |m.content|);
    assert Truncate(m, maxTokens) == Message(m.role, m.content[..k] + MARKER);
  }

  lemma {:induction false} RecentPassShortens(messages: seq<Message>, s: Selection, n: nat, limits: Limits)
    requires n <= |messages| == |s.selected| && OnlyShortens(messages, s)
    ensures OnlyShortens(messages, RecentPass(messages, s, n, limits))
    decreases n
  {
    if n > 0 {
      if Fits(messages, s, n - 1, limits) {
        RecentPassShortens(messages, KeepRecent(messages, s, n - 1), n - 1, limits);
      } else if WorthShortening(s, n - 1, limits) {
        TruncateShortens(messages[n - 1], limits.inputBudget - s.used);
        RecentPassShortens(messages, Shorten(messages, s, n - 1, limits), n - 1, limits);
      } else {
        RecentPassShortens(messages, s, n - 1, limits);
      }
    }
  }

  lemma {:induction false} AssembleEndsWithNewest(messages: seq<Message>, s: Selection, from: nat)
    requires from < |messages| == |s.selected| && s.selected[|messages| - 1]
    ensures var out, newest := Assemble(messages, s, from), |messages| - 1;
            out != [] && Last(out) == if newest in s.replacements then s.replacements[newest] else messages[newest]
    decreases |messages| - from
  {
    if from < |messages| - 1 {
      AssembleEndsWithNewest(messages, s, from + 1);
    } else {
      assert Assemble(messages, s, from + 1) == [];
    }
  }

  lemma EndsWithNewest(messages: seq<Message>, s: Selection)
    requires messages != [] && |messages| == |s.selected| && OnlyShortens(messages, s)
    requires s.selected[|messages| - 1] || true !in s.selected
    ensures KeepsNewest(messages, Assemble(messages, KeepOne(s), 0))
  {
    if s.selected[|messages| - 1] {
      assert s.selected[|messages| - 1] in s.selected;
    }
    AssembleEndsWithNewest(messages, KeepOne(s), 0);
  }

  lemma NewestSurvives(messages: seq<Message>, candidates: seq<nat>, plan: Plan, isNumber: string -> bool)
    requires plan.Ok() && ReadsNumbers(isNumber) && LeavesRoomForNewest(plan)
    requires messages != [] && AreCandidates(messages, candidates, isNumber)
    ensures KeepsNewest(messages, Budgeted(messages, candidates, plan))
  {
    if plan.windowTokens > 0 && 0 < plan.inputBudget < Total(messages) {
      var s := Select(messages, candidates, plan);
      MemoriesAreFirst(messages, candidates, plan.memoryBudget);
      RecentPassShortens(messages, MemoryPass(messages, candidates, plan.memoryBudget), |messages|, plan.RecentLimits());
      if plan.inputBudget < 5 {
        NoMemoryFits(messages, candidates, plan.memoryBudget);
        NothingFits(messages, Start(|messages|), |messages|, plan.RecentLimits());
      } else {
        MemoriesLeaveRoom(messages, candidates, plan, isNumber);
        NewestTaken(messages, MemoryPass(messages, candidates, plan.memoryBudget), plan.RecentLimits());
      }
      EndsWithNewest(messages, s);
    }
  }

  // ---- Displaced ---------------------------------------------------------------------------------

  lemma TwoMessages(a: Message, b: Message)
    ensures Total([a, b]) == Estimate(a) + Estimate(b)
    ensures forall s: Selection :: |s.selected| == 2 && s.selected == [true, false] && s.replacements == map[] ==> Assemble([a, b], s, 0) == [a]
  {
    assert [a, b][1..] == [b] && [b][1..] == [];
    assert Total([a, b]) == Estimate(a) + Total([b]) && Total([b]) == Estimate(b) + Total([]);
    forall s: Selection | |s.selected| == 2 && s.selected == [true, false] && s.replacements == map[]
      ensures Assemble([a, b], s, 0) == [a]
    {
      assert Assemble([a, b], s, 2) == [];
      assert Assemble([a, b], s, 1) == [];
    }
  }

  /** A recalled memory that leaves no room worth shortening into keeps the newest message out. */
  lemma MemoryDisplaces(memory: Message, newest: Message, plan: Plan, isNumber: string -> bool)
    requires IsMemory(memory, isNumber) && !IsMemory(newest, isNumber) && plan.windowTokens > 0 && plan.memoryBudget <= plan.inputBudget
    requires Estimate(memory) <= plan.memoryBudget && Estimate(memory) + Estimate(newest) > plan.inputBudget
    requires plan.inputBudget - Estimate(memory) <= 12 || plan.minRecent == 0
    ensures AreCandidates([memory, newest], [0], isNumber) && Budgeted([memory, newest], [0], plan) == [memory]
  {
    var messages, limits := [memory, newest], plan.RecentLimits();
    assert [0][..0] == [];
    assert MemoryPass(messages, [], plan.memoryBudget) == Start(2);
    var s := Selection([true, false], Estimate(memory), 0, map[]);
    assert Start(2).selected[0 := true] == [true, false];
    assert MemoryPass(messages, [0], plan.memoryBudget) == s;
    assert RecentPass(messages, s, 0, limits) == s;
    assert RecentPass(messages, s, 1, limits) == s;
    assert Select(messages, [0], plan) == s;
    TwoMessages(memory, newest);
  }

  /** So does an older message that fits, when the newest is neither small enough nor worth shortening. */
  lemma OlderDisplaces(older: Message, newest: Message, plan: Plan, isNumber: string -> bool)
    requires older.role == User && newest.role == User && plan.windowTokens > 0
    requires Estimate(older) <= plan.inputBudget < Estimate(newest)
    requires plan.inputBudget <= 12 || plan.minRecent == 0
    ensures AreCandidates([older, newest], [], isNumber) && Budgeted([older, newest], [], plan) == [older]
  {
    var messages, limits := [older, newest], plan.RecentLimits();
    var start := Start(2);
    assert MemoryPass(messages, [], plan.memoryBudget) == start;
    var s := KeepRecent(messages, start, 0);
    assert s.selected == [true, false];
    assert RecentPass(messages, s, 0, limits) == s;
    assert RecentPass(messages, start, 1, limits) == s;
    assert RecentPass(messages, start, 2, limits) == s;
    assert Select(messages, [], plan) == s;
    TwoMessages(older, newest);
  }

  /** A recalled memory of any cost from eight tokens on. */
  function MemoryOf(tokens: nat): Message
    requires tokens >= 8
  {
    Message(System, SCORE_MARKER + "1]" + seq(4 * tokens - 32, _ => 'm'))
  }

  lemma MemoryOfCosts(tokens: nat, isNumber: string -> bool)
    requires tokens >= 8 && ReadsNumbers(isNumber)
    ensures IsMemory(MemoryOf(tokens), isNumber) && Estimate(MemoryOf(tokens)) == tokens
  {
    var content := MemoryOf(tokens).content;
    assert |SCORE_MARKER| == 14 && |content| == 4 * tokens - 16;
    assert content[0..14] == SCORE_MARKER;
    var text := content[14..];
    assert text[0] == '1' && text[1] == ']';
    assert TokenEnd(text, 1) == 1 && TokenEnd(text, 0) == 1;
    assert text[..1] == "1";
    AsciiWhitespace('1');
    TrimIsTrimmed("1");
  }

  function UserOf(chars: nat): Message {
    Message(User, seq(chars, _ => 'u'))
  }

  /** Where no room is left, some request loses its newest message. */
  lemma NewestDisplaced(plan: Plan, isNumber: string -> bool) returns (messages: seq<Message>, candidates: seq<nat>)
    requires plan.Ok() && ReadsNumbers(isNumber) && !LeavesRoomForNewest(plan)
    ensures messages != [] && AreCandidates(messages, candidates, isNumber)
    ensures !KeepsNewest(messages, Budgeted(messages, candidates, plan))
  {
    var newest := UserOf(4 * plan.inputBudget);
    if plan.minRecent == 0 || plan.inputBudget <= 12 {
      messages, candidates := [UserOf(0), newest], [];
      OlderDisplaces(UserOf(0), newest, plan, isNumber);
      assert |UserOf(0).content| == 0 && |MARKER| == 15;
    } else {
      var memory := MemoryOf(plan.memoryBudget);
      messages, candidates := [memory, newest], [0];
      MemoryOfCosts(plan.memoryBudget, isNumber);
      MemoryDisplaces(memory, newest, plan, isNumber);
    }
  }

  /** Whatever the messages and the order of their memories, the newest message survives, whole or cut short, exactly
      under the plans that leave room for it. */
  lemma NewestAlwaysSurvivesIff(plan: Plan, isNumber: string -> bool)
    requires plan.Ok() && ReadsNumbers(isNumber)
    ensures AlwaysKeepsNewest(plan, isNumber) <==> LeavesRoomForNewest(plan)
  {
    if LeavesRoomForNewest(plan) {
      forall messages: seq<Message>, candidates: seq<nat> | messages != [] && AreCandidates(messages, candidates, isNumber)
        ensures KeepsNewest(messages, Budgeted(messages, candidates, plan))
      {
        NewestSurvives(messages, candidates, plan, isNumber);
      }
    } else {
      var messages, candidates := NewestDisplaced(plan, isNumber);
    }
  }

  const MEMORY_OF_48_TOKENS := Message(System, "[memory score=0.9] " + seq(157, _ => 'm'))

  lemma MemoryOf48Tokens(isNumber: string -> bool)
    requires isNumber("0.9")
    ensures IsMemory(MEMORY_OF_48_TOKENS, isNumber) && |MEMORY_OF_48_TOKENS.content| == 176
  {
    var content := MEMORY_OF_48_TOKENS.content;
    var text := content[14..];
    assert content[0..14] == SCORE_MARKER;
    assert text[0] == '0' && text[1] == '.' && text[2] == '9' && text[3] == ']';
    assert TokenEnd(text, 3) == 3 && TokenEnd(text, 2) == 3 && TokenEnd(text, 1) == 3 && TokenEnd(text, 0) == 3;
    assert text[..3] == "0.9";
    AsciiWhitespace('0');
    AsciiWhitespace('9');
    TrimIsTrimmed("0.9");
  }

  /** With 60 tokens, four fifths of them for memories: one recalled memory leaves exactly the 12 tokens that are not
      worth shortening into, and the newest message, of 13 tokens, is dropped. */
  lemma NewestDroppedAt60(isNumber: string -> bool)
    requires isNumber("0.9")
    ensures AreCandidates([MEMORY_OF_48_TOKENS, UserOf(36)], [0], isNumber)
    ensures Budgeted([MEMORY_OF_48_TOKENS, UserOf(36)], [0], PlanOf(60, 0, 80, 1)) == [MEMORY_OF_48_TOKENS]
  {
    MemoryOf48Tokens(isNumber);
    MemoryDisplaces(MEMORY_OF_48_TOKENS, UserOf(36), PlanOf(60, 0, 80, 1), isNumber);
  }
}

/**
 The context budgeter (src/service.rs): a three-pass greedy selection of messages
 under a token budget, with one truncating step.
 */
module ContextBudget {
  import opened Basics
  import opened Text
  import opened Messages

  const MARKER := " ...(truncated)"

  function EstimateTextTokens(text: string): nat {
    Max((|text| + 3) / 4, 1)
  }

  function Estimate(m: Message): (tokens: nat)
    ensures tokens >= 5
  {
    EstimateTextTokens(m.content) + 4
  }

  function Truncate(m: Message, maxTokens: nat): Message {
    if maxTokens == 0 then m.(content := "")
    else if Estimate(m) <= maxTokens then m
    else
      var maxChars := Max(SaturatingSub(Min(maxTokens * 4, USIZE_MAX), 12), 8);
      var head := m.content[..Min(maxChars, |m.content|)];
      m.(content := if head == "" then head else head + MARKER)
  }

  /** Every string does: it holds at most half as many bytes as a machine word counts. */
  predicate FitsMemory(m: Message) {
    |m.content| <= USIZE_MAX / 2
  }

  /** Truncating a message that does not fit overshoots its allowance by exactly four or five tokens. */
  lemma TruncateOvershoots(m: Message, maxTokens: nat)
    requires 12 < maxTokens && FitsMemory(m) && Estimate(m) > maxTokens
    ensures Estimate(Truncate(m, maxTokens)) == maxTokens + (if |m.content| == 4 * maxTokens - 15 then 4 else 5)
    ensures Truncate(m, maxTokens) == Message(m.role, m.content[..Min(4 * maxTokens - 12, |m.content|)] + " ...(truncated)")
  {
    assert |MARKER| == 15;
    assert |m.content| >= 4 * maxTokens - 15;
  }

  // ---- The selection -------------------------------------------------------------------------

  /** Which messages are taken so far, what they are counted as, how many recent ones were kept, and the
      message that was truncated. */
  datatype Selection = Selection(selected: seq<bool>, used: nat, recentKept: nat, replacements: map<nat, Message>)

  function Start(n: nat): Selection {
    Selection(seq(n, _ => false), 0, 0, map[])
  }

  function Take(s: Selection, idx: nat, tokens: nat): Selection
    requires idx < |s.selected|
  {
    s.(selected := s.selected[idx := true], used := s.used + tokens)
  }

  /** Messages recalled from memory, best first, as long as they fit their share. */
  function MemoryPass(messages: seq<Message>, candidates: seq<nat>, memoryBudget: nat): Selection
    requires forall n :: 0 <= n < |candidates| ==> candidates[n] < |messages|
    ensures |MemoryPass(messages, candidates, memoryBudget).selected| == |messages|
  {
    if candidates == [] then Start(|messages|)
    else
      var s := MemoryPass(messages, candidates[..|candidates| - 1], memoryBudget);
      var idx := candidates[|candidates| - 1];
      var tokens := Estimate(messages[idx]);
      if s.used + tokens > memoryBudget then s else Take(s, idx, tokens)
  }

  datatype Limits = Limits(inputBudget: nat, minRecent: nat)

  predicate Fits(messages: seq<Message>, s: Selection, idx: nat, limits: Limits)
    requires idx < |messages| == |s.selected|
  {
    !s.selected[idx] && s.used + Estimate(messages[idx]) <= limits.inputBudget
  }

  function KeepRecent(messages: seq<Message>, s: Selection, idx: nat): Selection
    requires idx < |messages| == |s.selected|
  {
    Take(s, idx, Estimate(messages[idx])).(recentKept := s.recentKept + 1)
  }

  predicate WorthShortening(s: Selection, idx: nat, limits: Limits)
    requires idx < |s.selected|
  {
    !s.selected[idx] && s.recentKept < limits.minRecent && SaturatingSub(limits.inputBudget, s.used) > 12
  }

  function Shorten(messages: seq<Message>, s: Selection, idx: nat, limits: Limits): Selection
    requires idx < |messages| == |s.selected|
  {
    var truncated := Truncate(messages[idx], SaturatingSub(limits.inputBudget, s.used));
    Selection(s.selected[idx := true], Min(s.used + Estimate(truncated), limits.inputBudget), s.recentKept + 1,
              s.replacements[idx := truncated])
  }

  /** The newest-first pass over the messages below `n`; it stops when a message that fits uses up the budget. */
  function RecentPass(messages: seq<Message>, s: Selection, n: nat, limits: Limits): (s': Selection)
    requires n <= |messages| == |s.selected|
    ensures |s'.selected| == |s.selected|
    decreases n
  {
    if n == 0 then s
    else if Fits(messages, s, n - 1, limits) then
      var s' := KeepRecent(messages, s, n - 1);
      if s'.used >= limits.inputBudget then s' else RecentPass(messages, s', n - 1, limits)
    else if WorthShortening(s, n - 1, limits) then
      RecentPass(messages, Shorten(messages, s, n - 1, limits), n - 1, limits)
    else
      RecentPass(messages, s, n - 1, limits)
  }

  /** The last pass fills what is left with any message that fits. */
  function FillPass(messages: seq<Message>, s: Selection, n: nat, limits: Limits): (s': Selection)
    requires n <= |messages| == |s.selected|
    ensures |s'.selected| == |s.selected|
    decreases n
  {
    if n == 0 || s.used >= limits.inputBudget then s
    else FillPass(messages, if Fits(messages, s, n - 1, limits) then Take(s, n - 1, Estimate(messages[n - 1])) else s, n - 1, limits)
  }

  /** The messages taken from index `from` on, in order, the truncated one in its new form. */
  function Assemble(messages: seq<Message>, s: Selection, from: nat): seq<Message>
    requires from <= |messages| == |s.selected|
    decreases |messages| - from
  {
    if from == |messages| then []
    else
      (if s.selected[from] then [if from in s.replacements then s.replacements[from] else messages[from]] else [])
      + Assemble(messages, s, from + 1)
  }

  function Total(messages: seq<Message>): nat {
    if messages == [] then 0 else Estimate(messages[0]) + Total(messages[1..])
  }

  /** The numbers a call works with. */
  datatype Plan = Plan(windowTokens: nat, inputBudget: nat, memoryBudget: nat, minRecent: nat) {
    function RecentLimits(): Limits {
      Limits(inputBudget, minRecent)
    }

    /** Recalled memories never get more than four fifths of the budget. */
    predicate Ok() {
      5 * memoryBudget <= 4 * inputBudget
    }
  }

  function PlanOf(windowTokens: nat, reservedTokens: nat, memoryRatio: nat, minRecent: nat): Plan {
    var inputBudget := SaturatingSub(windowTokens, reservedTokens);
    Plan(windowTokens, inputBudget, Min(inputBudget * Min(memoryRatio, 80), USIZE_MAX) / 100, minRecent)
  }

  lemma PlanOfOk(windowTokens: nat, reservedTokens: nat, memoryRatio: nat, minRecent: nat)
    ensures PlanOf(windowTokens, reservedTokens, memoryRatio, minRecent).Ok()
  {
    RatioBound(SaturatingSub(windowTokens, reservedTokens), Min(memoryRatio, 80));
  }

  /** The first two passes. */
  function Select(messages: seq<Message>, candidates: seq<nat>, plan: Plan): (s: Selection)
    requires forall n :: 0 <= n < |candidates| ==> candidates[n] < |messages|
    ensures |s.selected| == |messages|
  {
    RecentPass(messages, MemoryPass(messages, candidates, plan.memoryBudget), |messages|, plan.RecentLimits())
  }

  /** Different messages, in some order. */
  predicate AreIndices(messages: seq<Message>, candidates: seq<nat>) {
    && (forall n :: 0 <= n < |candidates| ==> candidates[n] < |messages|)
    && (forall m, n :: 0 <= m < n < |candidates| ==> candidates[m] != candidates[n])
  }

  /** The messages that stay. The last pass does not appear: it never selects anything. */
  function Budgeted(messages: seq<Message>, candidates: seq<nat>, plan: Plan): seq<Message>
    requires AreIndices(messages, candidates)
  {
    if messages == [] || plan.windowTokens == 0 then messages
    else if plan.inputBudget == 0 then [messages[|messages| - 1]]
    else if Total(messages) <= plan.inputBudget then messages
    else
      Assemble(messages, KeepOne(Select(messages, candidates, plan)), 0)
  }

  /** When nothing was taken, the newest message is. */
  function KeepOne(s: Selection): (s': Selection)
    requires s.selected != []
    ensures |s'.selected| == |s.selected|
  {
    if true in s.selected then s else s.(selected := s.selected[|s.selected| - 1 := true])
  }

  // ---- Recalled memories -------------------------------------------------------------------------

  const SCORE_MARKER := "[memory score="

  /** The first space or closing bracket from `i` on, or the length of the text. */
  function TokenEnd(text: string, i: nat): (k: nat)
    requires i <= |text|
    ensures i <= k <= |text|
    decreases |text| - i
  {
    if i < |text| && text[i] != ' ' && text[i] != ']' then TokenEnd(text, i + 1) else i
  }

  /** Whether a score is read from the content; `isNumber` is the parser of floating-point numbers. */
  predicate HasScore(content: string, isNumber: string -> bool) {
    match FindText(content, SCORE_MARKER, 0)
    case None => false
    case Some(k) =>
      var text := content[k + |SCORE_MARKER|..];
      var end := TokenEnd(text, 0);
      end < |text| && isNumber(Trim(text[..end]))
  }

  predicate IsMemory(m: Message, isNumber: string -> bool) {
    m.role.System? && HasScore(m.content, isNumber)
  }

  /** All recalled memories, in some order. */
  predicate AreCandidates(messages: seq<Message>, candidates: seq<nat>, isNumber: string -> bool) {
    && AreIndices(messages, candidates)
    && forall i :: 0 <= i < |messages| ==> (i in candidates <==> IsMemory(messages[i], isNumber))
  }

  function Recalled(messages: seq<Message>, isNumber: string -> bool): (candidates: seq<nat>)
    ensures forall n :: 0 <= n < |candidates| ==> candidates[n] < |messages|
  {
    if messages == [] then []
    else
      var n := |messages| - 1;
      Recalled(messages[..n], isNumber) + (if IsMemory(messages[n], isNumber) then [n] else [])
  }

  lemma {:induction false} RecalledAreCandidates(messages: seq<Message>, isNumber: string -> bool)
    ensures AreCandidates(messages, Recalled(messages, isNumber), isNumber)
  {
    if messages != [] {
      var n := |messages| - 1;
      var before := Recalled(messages[..n], isNumber);
      RecalledAreCandidates(messages[..n], isNumber);
      forall i | 0 <= i < |messages|
        ensures i in Recalled(messages, isNumber) <==> IsMemory(messages[i], isNumber)
      {
        if i < n {
          assert i in before <==> IsMemory(messages[..n][i], isNumber);
        }
      }
    }
  }

  lemma SortedAreCandidates(messages: seq<Message>, isNumber: string -> bool, candidates: seq<nat>)
    requires IsReordering(candidates, Recalled(messages, isNumber))
    ensures AreCandidates(messages, candidates, isNumber)
  {
    var recalled := Recalled(messages, isNumber);
    RecalledAreCandidates(messages, isNumber);
    SameElements(recalled, candidates);
    forall n | 0 <= n < |candidates|
      ensures candidates[n] < |messages|
    {
      assert candidates[n] in recalled;
    }
  }

  // ---- Nothing fits after the newest-first pass --------------------------------------------------

  /** No message from `n` on that is not taken would fit. */
  ghost predicate Full(messages: seq<Message>, s: Selection, n: nat, limits: Limits)
    requires |messages| == |s.selected|
  {
    s.used >= limits.inputBudget || forall i :: n <= i < |messages| ==> !Fits(messages, s, i, limits)
  }

  lemma {:induction false} MemoryPassWithin(messages: seq<Message>, candidates: seq<nat>, memoryBudget: nat)
    requires AreIndices(messages, candidates)
    ensures MemoryPass(messages, candidates, memoryBudget).used <= memoryBudget
  {
    if candidates != [] {
      MemoryPassWithin(messages, candidates[..|candidates| - 1], memoryBudget);
    }
  }

  lemma MemoryPassFits(messages: seq<Message>, candidates: seq<nat>, plan: Plan)
    requires AreIndices(messages, candidates) && plan.Ok()
    ensures 5 * MemoryPass(messages, candidates, plan.memoryBudget).used <= 4 * plan.inputBudget
  {
    MemoryPassWithin(messages, candidates, plan.memoryBudget);
  }

  lemma RatioBound(budget: nat, ratio: nat)
    requires ratio <= 80
    ensures 5 * (Min(budget * ratio, USIZE_MAX) / 100) <= 4 * budget
  {
    MulMonotone(budget, ratio, 80);
    ShareBound(budget, Min(budget * ratio, USIZE_MAX));
  }

  lemma ShareBound(budget: nat, share: nat)
    requires share <= budget * 80
    ensures 5 * (share / 100) <= 4 * budget
  {
  }

  lemma FullGrows(messages: seq<Message>, s: Selection, s': Selection, n: nat, limits: Limits)
    requires 0 < n <= |messages| == |s.selected| == |s'.selected|
    requires Full(messages, s, n, limits) && s.used <= s'.used
    requires forall i :: 0 <= i < |messages| && s.selected[i] ==> s'.selected[i]
    requires !Fits(messages, s', n - 1, limits)
    ensures Full(messages, s', n - 1, limits)
  {
    if s.used < limits.inputBudget {
      forall i | n - 1 <= i < |messages|
        ensures !Fits(messages, s', i, limits)
      {
        if i >= n {
          assert !Fits(messages, s, i, limits);
        }
      }
    }
  }

  lemma {:induction false} RecentPassFills(messages: seq<Message>, s: Selection, n: nat, limits: Limits)
    requires n <= |messages| == |s.selected| && s.used <= limits.inputBudget && Full(messages, s, n, limits)
    ensures Full(messages, RecentPass(messages, s, n, limits), 0, limits)
    decreases n
  {
    if n > 0 {
      if Fits(messages, s, n - 1, limits) {
        var s' := KeepRecent(messages, s, n - 1);
        FullGrows(messages, s, s', n, limits);
        if s'.used < limits.inputBudget {
          RecentPassFills(messages, s', n - 1, limits);
        }
      } else if WorthShortening(s, n - 1, limits) {
        var s' := Shorten(messages, s, n - 1, limits);
        FullGrows(messages, s, s', n, limits);
        RecentPassFills(messages, s', n - 1, limits);
      } else {
        FullGrows(messages, s, s, n, limits);
        RecentPassFills(messages, s, n - 1, limits);
      }
    }
  }

  lemma {:induction false} FillPassSelectsNothing(messages: seq<Message>, s: Selection, n: nat, limits: Limits)
    requires n <= |messages| == |s.selected| && Full(messages, s, 0, limits)
    ensures FillPass(messages, s, n, limits) == s
    decreases n
  {
    if n > 0 && s.used < limits.inputBudget {
      FillPassSelectsNothing(messages, s, n - 1, limits);
    }
  }

  // ---- The method ------------------------------------------------------------------------------

  method TakeMemories(messages: seq<Message>, candidates: seq<nat>, memoryBudget: nat, selected: array<bool>) returns (used: nat)
    requires AreIndices(messages, candidates)
    requires selected[..] == Start(|messages|).selected
    modifies selected
    ensures MemoryPass(messages, candidates, memoryBudget) == Selection(selected[..], used, 0, map[])
  {
    used := 0;
    for c := 0 to |candidates|
      invariant MemoryPass(messages, candidates[..c], memoryBudget) == Selection(selected[..], used, 0, map[])
    {
      assert candidates[..c + 1][..c] == candidates[..c];
      var idx := candidates[c];
      var tokens := Estimate(messages[idx]);
      if used + tokens > memoryBudget {
        continue;
      }
      selected[idx] := true;
      used := used + tokens;
    }
    assert candidates[..|candidates|] == candidates;
  }

  method TakeRecent(messages: seq<Message>, selected: array<bool>, usedBefore: nat, limits: Limits)
    returns (used: nat, recentKept: nat, replacements: map<nat, Message>)
    requires selected.Length == |messages|
    modifies selected
    ensures RecentPass(messages, Selection(old(selected[..]), usedBefore, 0, map[]), |messages|, limits)
         == Selection(selected[..], used, recentKept, replacements)
  {
    used, recentKept, replacements := usedBefore, 0, map[];
    ghost var goal := RecentPass(messages, Selection(selected[..], used, 0, map[]), |messages|, limits);
    for idx := |messages| downto 0
      invariant RecentPass(messages, Selection(selected[..], used, recentKept, replacements), idx, limits) == goal
    {
      if selected[idx] {
        continue;
      }
      var tokens := Estimate(messages[idx]);
      if used + tokens > limits.inputBudget {
        if recentKept < limits.minRecent {
          var remain := SaturatingSub(limits.inputBudget, used);
          if remain > 12 {
            var truncated := Truncate(messages[idx], remain);
            selected[idx] := true;
            used := Min(used + Estimate(truncated), limits.inputBudget);
            replacements := replacements[idx := truncated];
            recentKept := recentKept + 1;
          }
        }
        continue;
      }
      selected[idx] := true;
      used := used + tokens;
      recentKept := recentKept + 1;
      if used >= limits.inputBudget {
        break;
      }
    }
  }

  method FillRest(messages: seq<Message>, selected: array<bool>, usedBefore: nat, limits: Limits, ghost s: Selection)
    returns (used: nat)
    requires selected.Length == |messages| && s.selected == selected[..] && s.used == usedBefore
    modifies selected
    ensures FillPass(messages, s, |messages|, limits) == s.(selected := selected[..], used := used)
  {
    used := usedBefore;
    ghost var goal := FillPass(messages, s, |messages|, limits);
    for idx := |messages| downto 0
      invariant FillPass(messages, s.(selected := selected[..], used := used), idx, limits) == goal
    {
      if used >= limits.inputBudget {
        break;
      }
      if selected[idx] {
        continue;
      }
      var tokens := Estimate(messages[idx]);
      if used + tokens > limits.inputBudget {
        continue;
      }
      selected[idx] := true;
      used := used + tokens;
    }
  }

  method Collect(messages: seq<Message>, selected: array<bool>, replacements: map<nat, Message>, ghost s: Selection)
    returns (out: seq<Message>)
    requires selected.Length == |messages| && s.selected == selected[..] && s.replacements == replacements
    ensures out == Assemble(messages, s, 0)
  {
    out := [];
    for idx := 0 to |messages|
      invariant out + Assemble(messages, s, idx) == Assemble(messages, s, 0)
    {
      if selected[idx] {
        out := out + [if idx in replacements then replacements[idx] else messages[idx]];
      }
    }
  }

  /** Sorting by score, whatever the scores are. */
  ghost predicate IsSort(sort: seq<nat> -> seq<nat>) {
    forall candidates: seq<nat> :: IsReordering(sort(candidates), candidates)
  }

  method RecallMemories(messages: seq<Message>, isNumber: string -> bool) returns (recalled: seq<nat>)
    ensures recalled == Recalled(messages, isNumber)
  {
    recalled := [];
    for idx := 0 to |messages|
      invariant recalled == Recalled(messages[..idx], isNumber)
    {
      assert messages[..idx + 1][..idx] == messages[..idx];
      if IsMemory(messages[idx], isNumber) {
        recalled := recalled + [idx];
      }
    }
    assert messages[..|messages|] == messages;
  }

  method ApplyContextBudget(messages: seq<Message>, isNumber: string -> bool, sort: seq<nat> -> seq<nat>,
                            windowTokens: nat, reservedTokens: nat, memoryRatio: nat, minRecent: nat)
    returns (out: seq<Message>)
    requires IsSort(sort)
    ensures AreCandidates(messages, sort(Recalled(messages, isNumber)), isNumber)
    ensures out == Budgeted(messages, sort(Recalled(messages, isNumber)), PlanOf(windowTokens, reservedTokens, memoryRatio, minRecent))
  {
    ghost var candidates := sort(Recalled(messages, isNumber));
    SortedAreCandidates(messages, isNumber, candidates);
    var n := |messages|;
    if n == 0 || windowTokens == 0 {
      return messages;
    }
    var plan := PlanOf(windowTokens, reservedTokens, memoryRatio, minRecent);
    PlanOfOk(windowTokens, reservedTokens, memoryRatio, minRecent);
    if plan.inputBudget == 0 {
      return [messages[n - 1]];
    }
    if Total(messages) <= plan.inputBudget {
      return messages;
    }
    var selected := new bool[n](_ => false);
    assert selected[..] == Start(n).selected;
    var recalled := RecallMemories(messages, isNumber);
    var used := TakeMemories(messages, sort(recalled), plan.memoryBudget, selected);
    ghost var remembered := MemoryPass(messages, candidates, plan.memoryBudget);
    var recentKept, replacements;
    used, recentKept, replacements := TakeRecent(messages, selected, used, plan.RecentLimits());
    ghost var s := Select(messages, candidates, plan);
    used := FillRest(messages, selected, used, plan.RecentLimits(), s);
    MemoryPassFits(messages, candidates, plan);
    RecentPassFills(messages, remembered, n, plan.RecentLimits());
    FillPassSelectsNothing(messages, s, n, plan.RecentLimits());
    if true !in selected[..] {
      selected[n - 1] := true;
    }
    out := Collect(messages, selected, replacements, KeepOne(s));
  }
}

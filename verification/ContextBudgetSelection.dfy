/**
 Which messages the context budgeter takes (src/service.rs:1374-1491), said of its
 result and of the costs alone.
 */
module ContextBudgetSelection {
  import opened Basics
  import opened Text
  import opened Messages
  import opened ContextBudget
  import opened ContextBudgetCost

  // ---- Recalled memories -------------------------------------------------------------------------

  /** What the candidates cost that are taken. */
  function TakenCost(messages: seq<Message>, order: seq<nat>, taken: seq<bool>): nat
    requires |taken| == |messages| && forall n :: 0 <= n < |order| ==> order[n] < |messages|
  {
    if order == [] then 0
    else TakenCost(messages, Front(order), taken) + (if taken[Last(order)] then Estimate(messages[Last(order)]) else 0)
  }

  /** What all of them cost. */
  function CandidateCost(messages: seq<Message>, order: seq<nat>): nat
    requires forall n :: 0 <= n < |order| ==> order[n] < |messages|
  {
    if order == [] then 0 else CandidateCost(messages, Front(order)) + Estimate(messages[Last(order)])
  }

  lemma {:induction false} TakenCostSame(messages: seq<Message>, order: seq<nat>, a: seq<bool>, b: seq<bool>)
    requires |a| == |b| == |messages| && forall n :: 0 <= n < |order| ==> order[n] < |messages| && a[order[n]] == b[order[n]]
    ensures TakenCost(messages, order, a) == TakenCost(messages, order, b)
  {
    if order != [] {
      TakenCostSame(messages, Front(order), a, b);
    }
  }

  lemma {:induction false} TakenCostBound(messages: seq<Message>, order: seq<nat>, taken: seq<bool>, n: nat)
    requires |taken| == |messages| && n < |order| && forall m :: 0 <= m < |order| ==> order[m] < |messages|
    ensures TakenCost(messages, order[..n], taken) + Estimate(messages[order[n]]) <= CandidateCost(messages, order)
    decreases |order|
  {
    if n == |order| - 1 {
      AllTakenCost(messages, Front(order), taken);
    } else {
      TakenCostBound(messages, Front(order), taken, n);
      assert Front(order)[..n] == order[..n];
    }
  }

  lemma {:induction false} AllTakenCost(messages: seq<Message>, order: seq<nat>, taken: seq<bool>)
    requires |taken| == |messages| && forall m :: 0 <= m < |order| ==> order[m] < |messages|
    ensures TakenCost(messages, order, taken) <= CandidateCost(messages, order)
  {
    if order != [] {
      AllTakenCost(messages, Front(order), taken);
    }
  }

  /** The pass over the memories ends with some messages taken; `used` is what they cost. */
  lemma {:induction false} MemoryPassSums(messages: seq<Message>, candidates: seq<nat>, memoryBudget: nat)
    requires AreIndices(messages, candidates)
    ensures var s := MemoryPass(messages, candidates, memoryBudget);
            s.used == TakenCost(messages, candidates, s.selected) && forall i :: 0 <= i < |messages| && i !in candidates ==> !s.selected[i]
  {
    if candidates != [] {
      var before, idx := Front(candidates), Last(candidates);
      var s', s := MemoryPass(messages, before, memoryBudget), MemoryPass(messages, candidates, memoryBudget);
      MemoryPassSums(messages, before, memoryBudget);
      TakenCostSame(messages, before, s'.selected, s.selected);
      assert idx !in before;
      assert candidates == before + [idx];
    }
  }

  /** One more candidate: it is taken if it fits, and nothing else changes. */
  lemma MemoryPassNext(messages: seq<Message>, candidates: seq<nat>, memoryBudget: nat)
    requires AreIndices(messages, candidates) && candidates != []
    ensures var before, idx := Front(candidates), Last(candidates);
            var taken', taken := MemoryPass(messages, before, memoryBudget).selected, MemoryPass(messages, candidates, memoryBudget).selected;
            && AreIndices(messages, before) && (forall i :: 0 <= i < |messages| && i != idx ==> taken[i] == taken'[i])
            && (taken[idx] <==> TakenCost(messages, before, taken') + Estimate(messages[idx]) <= memoryBudget)
            && (forall n :: 0 <= n < |before| ==> taken[before[n]] == taken'[before[n]])
  {
    MemoryPassSums(messages, Front(candidates), memoryBudget);
    assert Last(candidates) !in Front(candidates);
  }

  /** A recalled memory is taken exactly when it fits the share beside the memories taken before it in the order. */
  lemma {:induction false} MemoryTakenIff(messages: seq<Message>, candidates: seq<nat>, memoryBudget: nat, n: nat)
    requires AreIndices(messages, candidates) && n < |candidates|
    ensures var taken := MemoryPass(messages, candidates, memoryBudget).selected;
            taken[candidates[n]] <==> TakenCost(messages, candidates[..n], taken) + Estimate(messages[candidates[n]]) <= memoryBudget
    decreases |candidates|
  {
    var before := Front(candidates);
    MemoryPassNext(messages, candidates, memoryBudget);
    TakenCostSame(messages, before[..n], MemoryPass(messages, before, memoryBudget).selected, MemoryPass(messages, candidates, memoryBudget).selected);
    assert candidates[..n] == before[..n];
    if n < |before| {
      MemoryTakenIff(messages, before, memoryBudget, n);
    } else {
      assert before[..n] == before;
    }
  }

  /** So all are taken when together they fit the share. */
  lemma AllMemoriesTaken(messages: seq<Message>, candidates: seq<nat>, memoryBudget: nat, n: nat)
    requires AreIndices(messages, candidates) && n < |candidates| && CandidateCost(messages, candidates) <= memoryBudget
    ensures MemoryPass(messages, candidates, memoryBudget).selected[candidates[n]]
  {
    MemoryTakenIff(messages, candidates, memoryBudget, n);
    TakenCostBound(messages, candidates, MemoryPass(messages, candidates, memoryBudget).selected, n);
  }

  // ---- Recent messages ---------------------------------------------------------------------------

  /** A pass over the messages below `n` only takes messages below `n` that were not taken. */
  lemma {:induction false} RecentPassFrame(messages: seq<Message>, s: Selection, n: nat, limits: Limits, i: nat)
    requires n <= |messages| == |s.selected| && i < |messages| && (i >= n || s.selected[i])
    ensures var r := RecentPass(messages, s, n, limits);
            r.selected[i] == s.selected[i] && (i in r.replacements <==> i in s.replacements)
    decreases n
  {
    if n > 0 {
      if Fits(messages, s, n - 1, limits) {
        RecentPassFrame(messages, KeepRecent(messages, s, n - 1), n - 1, limits, i);
      } else if WorthShortening(s, n - 1, limits) {
        RecentPassFrame(messages, Shorten(messages, s, n - 1, limits), n - 1, limits, i);
      } else {
        RecentPassFrame(messages, s, n - 1, limits, i);
      }
    }
  }

  /** What the messages in `[from, n)` cost that were not taken before and are taken now. */
  function KeptCost(messages: seq<Message>, before: seq<bool>, after: seq<bool>, from: nat, n: nat): nat
    requires from <= n <= |messages| == |before| == |after|
    decreases n - from
  {
    if from == n then 0
    else KeptCost(messages, before, after, from, n - 1) + (if !before[n - 1] && after[n - 1] then Estimate(messages[n - 1]) else 0)
  }

  lemma {:induction false} KeptCostSame(messages: seq<Message>, before: seq<bool>, before': seq<bool>, after: seq<bool>, from: nat, n: nat)
    requires from <= n <= |messages| == |before| == |before'| == |after|
    requires forall i :: from <= i < n ==> before[i] == before'[i]
    ensures KeptCost(messages, before, after, from, n) == KeptCost(messages, before', after, from, n)
    decreases n - from
  {
    if from < n {
      KeptCostSame(messages, before, before', after, from, n - 1);
    }
  }

  lemma {:induction false} KeptNone(messages: seq<Message>, taken: seq<bool>, after: seq<bool>, from: nat, n: nat)
    requires from <= n <= |messages| == |taken| == |after| && forall i :: from <= i < n ==> taken[i] == after[i]
    ensures KeptCost(messages, taken, after, from, n) == 0
    decreases n - from
  {
    if from < n {
      KeptNone(messages, taken, after, from, n - 1);
    }
  }

  /** What the pass decides about the k-th message: when a newer one was shortened, nothing is left for it; otherwise it is
      kept whole exactly when it fits beside what was used before and the newer messages that are kept. */
  ghost predicate DecidesRight(messages: seq<Message>, s: Selection, n: nat, limits: Limits, r: Selection, k: nat)
    requires k < n <= |messages| == |s.selected| == |r.selected|
  {
    if exists q: nat :: k < q < n && q in r.replacements then !r.selected[k]
    else (r.selected[k] && k !in r.replacements <==>
            s.used + KeptCost(messages, s.selected, r.selected, k + 1, n) + Estimate(messages[k]) <= limits.inputBudget)
  }

  /** Nothing below `n` is truncated yet. */
  ghost predicate Whole(s: Selection, n: nat) {
    forall i: nat :: i < n ==> i !in s.replacements
  }

  lemma {:induction false} RecentPassDecides(messages: seq<Message>, s: Selection, n: nat, limits: Limits, k: nat)
    requires k < n <= |messages| == |s.selected| && !s.selected[k] && Whole(s, n) && AllFitMemory(messages)
    ensures DecidesRight(messages, s, n, limits, RecentPass(messages, s, n, limits), k)
    decreases n
  {
    var idx, r := n - 1, RecentPass(messages, s, n, limits);
    if Fits(messages, s, idx, limits) {
      var s' := KeepRecent(messages, s, idx);
      if s'.used >= limits.inputBudget {
        KeptUsesUp(messages, s, n, limits, k);
      } else {
        RecentPassFrame(messages, s', idx, limits, idx);
        assert idx !in r.replacements;
        if k < idx {
          RecentPassDecides(messages, s', idx, limits, k);
          DecidedLower(messages, s, s', idx, limits, r, k);
        }
      }
    } else if WorthShortening(s, idx, limits) {
      ShortenedDecides(messages, s, n, limits, k);
    } else {
      RecentPassFrame(messages, s, idx, limits, idx);
      if k < idx {
        RecentPassDecides(messages, s, idx, limits, k);
        DecidedLower(messages, s, s, idx, limits, r, k);
      }
    }
  }

  lemma DecidedLower(messages: seq<Message>, s: Selection, s': Selection, idx: nat, limits: Limits, r: Selection, k: nat)
    requires k < idx < |messages| == |s.selected| == |s'.selected| == |r.selected|
    requires DecidesRight(messages, s', idx, limits, r, k) && idx !in r.replacements
    requires forall i :: 0 <= i < idx ==> s'.selected[i] == s.selected[i]
    requires s'.used == s.used + if !s.selected[idx] && r.selected[idx] then Estimate(messages[idx]) else 0
    ensures DecidesRight(messages, s, idx + 1, limits, r, k)
  {
    KeptCostSame(messages, s.selected, s'.selected, r.selected, k + 1, idx);
    assert (exists q: nat :: k < q < idx + 1 && q in r.replacements) <==> (exists q: nat :: k < q < idx && q in r.replacements);
  }

  lemma KeptUsesUp(messages: seq<Message>, s: Selection, n: nat, limits: Limits, k: nat)
    requires k < n <= |messages| == |s.selected| && !s.selected[k] && Whole(s, n)
    requires Fits(messages, s, n - 1, limits) && KeepRecent(messages, s, n - 1).used >= limits.inputBudget
    ensures DecidesRight(messages, s, n, limits, KeepRecent(messages, s, n - 1), k)
  {
    var r := KeepRecent(messages, s, n - 1);
    if k < n - 1 {
      KeptNone(messages, s.selected, r.selected, k + 1, n - 1);
    }
  }

  lemma ShortenedDecides(messages: seq<Message>, s: Selection, n: nat, limits: Limits, k: nat)
    requires k < n <= |messages| == |s.selected| && !s.selected[k] && Whole(s, n) && AllFitMemory(messages)
    requires !Fits(messages, s, n - 1, limits) && WorthShortening(s, n - 1, limits)
    ensures DecidesRight(messages, s, n, limits, RecentPass(messages, s, n, limits), k)
  {
    var s' := Shorten(messages, s, n - 1, limits);
    TruncateOvershoots(messages[n - 1], limits.inputBudget - s.used);
    UsedUp(messages, s', n - 1, limits);
    assert n - 1 in s'.replacements;
    if k == n - 1 {
      assert KeptCost(messages, s.selected, s'.selected, n, n) == 0;
    }
  }

  // ---- The result --------------------------------------------------------------------------------

  lemma {:induction false} AssembleHolds(messages: seq<Message>, s: Selection, from: nat, i: nat)
    requires from <= i < |messages| == |s.selected| && s.selected[i] && i !in s.replacements
    ensures messages[i] in Assemble(messages, s, from)
    decreases |messages| - from
  {
    if from < i {
      AssembleHolds(messages, s, from + 1, i);
    }
  }

  lemma {:induction false} NoneTaken(messages: seq<Message>, candidates: seq<nat>)
    requires AreIndices(messages, candidates)
    ensures MemoryPass(messages, candidates, 0) == Start(|messages|)
  {
    if candidates != [] {
      NoneTaken(messages, Front(candidates));
    }
  }

  /** A recalled memory that is taken is in the result, whole. */
  lemma TakenMemorySurvives(messages: seq<Message>, candidates: seq<nat>, plan: Plan, i: nat)
    requires plan.Ok() && AreIndices(messages, candidates) && i < |messages|
    requires MemoryPass(messages, candidates, plan.memoryBudget).selected[i]
    ensures messages[i] in Budgeted(messages, candidates, plan)
  {
    var memories, s := MemoryPass(messages, candidates, plan.memoryBudget), Select(messages, candidates, plan);
    if plan.windowTokens > 0 && plan.inputBudget < Total(messages) {
      if plan.inputBudget == 0 {
        NoneTaken(messages, candidates);
      }
      MemoriesAreFirst(messages, candidates, plan.memoryBudget);
      RecentPassFrame(messages, memories, |messages|, plan.RecentLimits(), i);
      assert s.selected[i] in s.selected;
      AssembleHolds(messages, s, 0, i);
      BudgetedIs(messages, candidates, plan);
    }
  }

  /** When the recalled memories together fit their share, every one of them is in the result. */
  lemma AllMemoriesSurvive(messages: seq<Message>, candidates: seq<nat>, plan: Plan, isNumber: string -> bool)
    requires plan.Ok() && AreCandidates(messages, candidates, isNumber) && CandidateCost(messages, candidates) <= plan.memoryBudget
    ensures forall i :: 0 <= i < |messages| && IsMemory(messages[i], isNumber) ==> messages[i] in Budgeted(messages, candidates, plan)
  {
    forall i | 0 <= i < |messages| && IsMemory(messages[i], isNumber)
      ensures messages[i] in Budgeted(messages, candidates, plan)
    {
      var n :| 0 <= n < |candidates| && candidates[n] == i;
      AllMemoriesTaken(messages, candidates, plan.memoryBudget, n);
      TakenMemorySurvives(messages, candidates, plan, i);
    }
  }

  /** Of the other messages, the selection keeps whole exactly those that fit beside the memories and the newer ones kept,
      as long as none is shortened. */
  lemma RecentKeptIff(messages: seq<Message>, candidates: seq<nat>, plan: Plan, k: nat)
    requires AreIndices(messages, candidates) && AllFitMemory(messages) && k < |messages|
    requires !MemoryPass(messages, candidates, plan.memoryBudget).selected[k]
    ensures var memories, s := MemoryPass(messages, candidates, plan.memoryBudget), Select(messages, candidates, plan);
            DecidesRight(messages, memories, |messages|, plan.RecentLimits(), s, k)
  {
    MemoriesAreFirst(messages, candidates, plan.memoryBudget);
    RecentPassDecides(messages, MemoryPass(messages, candidates, plan.memoryBudget), |messages|, plan.RecentLimits(), k);
  }

  /** Without a window, and when everything fits, nothing is dropped; without any budget only the newest message stays. */
  lemma SimpleCases(messages: seq<Message>, candidates: seq<nat>, plan: Plan)
    requires AreIndices(messages, candidates) && messages != []
    ensures plan.windowTokens == 0 ==> Budgeted(messages, candidates, plan) == messages
    ensures 0 < plan.inputBudget && Total(messages) <= plan.inputBudget ==> Budgeted(messages, candidates, plan) == messages
    ensures 0 < plan.windowTokens && plan.inputBudget == 0 ==> Budgeted(messages, candidates, plan) == [Last(messages)]
  {
  }

  /** The budget is what the window leaves beside the reserve, and the memories' share is that many hundredths of it, at
      most eighty, rounded down. */
  lemma PlanIs(windowTokens: nat, reservedTokens: nat, memoryRatio: nat, minRecent: nat)
    ensures var plan := PlanOf(windowTokens, reservedTokens, memoryRatio, minRecent);
            var ratio := if memoryRatio <= 80 then memoryRatio else 80;
            && plan.windowTokens == windowTokens && plan.minRecent == minRecent
            && (reservedTokens <= windowTokens ==> plan.inputBudget + reservedTokens == windowTokens)
            && (reservedTokens >= windowTokens ==> plan.inputBudget == 0)
            && (plan.inputBudget * ratio <= USIZE_MAX ==>
                  100 * plan.memoryBudget <= plan.inputBudget * ratio < 100 * plan.memoryBudget + 100)
  {
  }

  // ---- Memory scores -----------------------------------------------------------------------------

  lemma {:induction false} FindTextIs(s: string, pattern: string, i: nat, k: nat)
    requires pattern != "" && i <= k && k + |pattern| <= |s| && s[k..k + |pattern|] == pattern
    requires forall j :: i <= j < k ==> s[j] != pattern[0]
    ensures FindText(s, pattern, i) == Some(k)
    decreases k - i
  {
    if i < k {
      assert i + |pattern| <= |s| ==> s[i..i + |pattern|][0] == s[i];
      FindTextIs(s, pattern, i + 1, k);
    }
  }

  lemma {:induction false} TokenEndIs(text: string, i: nat, k: nat)
    requires i <= k <= |text| && (k < |text| ==> text[k] == ' ' || text[k] == ']')
    requires forall j :: i <= j < k ==> text[j] != ' ' && text[j] != ']'
    ensures TokenEnd(text, i) == k
    decreases k - i
  {
    if i < k {
      TokenEndIs(text, i + 1, k);
    }
  }

  lemma MarkerIsFound(before: string, text: string)
    requires '[' !in before
    ensures FindText(before + "[memory score=" + text, SCORE_MARKER, 0) == Some(|before|)
    ensures (before + "[memory score=" + text)[|before| + |SCORE_MARKER|..] == text
  {
    var content, k := before + "[memory score=" + text, |before|;
    assert |SCORE_MARKER| == 14 && SCORE_MARKER[0] == '[';
    assert content[k..k + 14] == SCORE_MARKER;
    assert forall j :: 0 <= j < k ==> content[j] == before[j];
    FindTextIs(content, SCORE_MARKER, 0, k);
  }

  /** A recalled memory is a system message with a score: the token behind the marker, up to a space or a closing bracket;
      without such an end there is none. */
  lemma ScoreIs(role: Role, before: string, token: string, end: string, isNumber: string -> bool)
    requires '[' !in before && ' ' !in token && ']' !in token && (end != "" ==> end[0] == ' ' || end[0] == ']')
    ensures IsMemory(Message(role, before + "[memory score=" + (token + end)), isNumber) <==>
              role == System && end != "" && isNumber(Trim(token))
  {
    var text := token + end;
    MarkerIsFound(before, text);
    TokenEndIs(text, 0, |token|);
    assert text[..|token|] == token;
  }

  /** And without a marker there is none either. */
  lemma {:induction false} NoMarkerNoScore(content: string, i: nat)
    requires i <= |content| && '[' !in content
    ensures FindText(content, SCORE_MARKER, i) == None
    decreases |content| - i
  {
    assert SCORE_MARKER[0] == '[' && |SCORE_MARKER| == 14;
    if i + 14 <= |content| {
      assert content[i..i + 14][0] == content[i];
    }
    if i < |content| {
      NoMarkerNoScore(content, i + 1);
    }
  }
}

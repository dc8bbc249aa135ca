/**
 What the context budgeter (src/service.rs:1374-1534) lets a request cost, and which
 messages it keeps.
 */
module ContextBudgetCost {
  import opened Basics
  import opened Messages
  import opened ContextBudget

  // ---- What the result costs -------------------------------------------------------------------

  predicate AllFitMemory(messages: seq<Message>) {
    forall i :: 0 <= i < |messages| ==> FitsMemory(messages[i])
  }

  lemma TotalCons(m: Message, rest: seq<Message>)
    ensures Total([m] + rest) == Estimate(m) + Total(rest)
  {
    assert ([m] + rest)[1..] == rest;
  }

  /** Taking or replacing one more message adds what it costs. */
  lemma {:induction false} AssembleInsert(messages: seq<Message>, s: Selection, s': Selection, idx: nat, m: Message, from: nat)
    requires from <= |messages| == |s.selected| == |s'.selected| && idx < |messages|
    requires !s.selected[idx] && s'.selected == s.selected[idx := true]
    requires if idx in s'.replacements then s'.replacements[idx] == m else messages[idx] == m
    requires forall k :: k != idx ==> (k in s.replacements <==> k in s'.replacements)
    requires forall k :: k != idx && k in s.replacements ==> s.replacements[k] == s'.replacements[k]
    ensures Total(Assemble(messages, s', from)) == Total(Assemble(messages, s, from)) + (if from <= idx then Estimate(m) else 0)
    decreases |messages| - from
  {
    if from < |messages| {
      AssembleInsert(messages, s, s', idx, m, from + 1);
      var rest, rest' := Assemble(messages, s, from + 1), Assemble(messages, s', from + 1);
      if from == idx {
        assert Assemble(messages, s', from) == [m] + rest' && Assemble(messages, s, from) == [] + rest == rest;
        TotalCons(m, rest');
      } else if s.selected[from] {
        var kept := if from in s.replacements then s.replacements[from] else messages[from];
        assert Assemble(messages, s', from) == [kept] + rest' && Assemble(messages, s, from) == [kept] + rest;
        TotalCons(kept, rest);
        TotalCons(kept, rest');
      } else {
        assert Assemble(messages, s', from) == [] + rest' == rest' && Assemble(messages, s, from) == [] + rest == rest;
      }
    }
  }

  lemma {:induction false} AssembleNothing(messages: seq<Message>, s: Selection, from: nat)
    requires from <= |messages| == |s.selected| && true !in s.selected
    ensures Assemble(messages, s, from) == []
    decreases |messages| - from
  {
    if from < |messages| {
      assert s.selected[from] != true;
      AssembleNothing(messages, s, from + 1);
    }
  }

  /** The running total is what the taken messages cost, until one is truncated into the room that is left;
      then it is the whole budget, and the messages cost four or five tokens more. */
  ghost predicate Accounted(messages: seq<Message>, s: Selection, budget: nat) {
    && |messages| == |s.selected| && s.used <= budget
    && (s.replacements == map[] ==> Total(Assemble(messages, s, 0)) == s.used)
    && (s.replacements != map[] ==> s.used == budget && HasShortening(messages, s, budget))
  }

  ghost predicate HasShortening(messages: seq<Message>, s: Selection, budget: nat) {
    exists idx: nat, room: nat :: IsShortening(messages, s, budget, idx, room)
  }

  /** `idx` is the one truncated message; `room` is what was left of the budget for it. */
  ghost predicate IsShortening(messages: seq<Message>, s: Selection, budget: nat, idx: nat, room: nat) {
    && |messages| == |s.selected| && idx < |messages| && s.selected[idx]
    && 12 < room <= budget && Estimate(messages[idx]) > room
    && s.replacements == map[idx := Truncate(messages[idx], room)]
    && Total(Assemble(messages, s, 0)) == budget - room + Estimate(Truncate(messages[idx], room))
  }

  lemma TakeAccounted(messages: seq<Message>, s: Selection, idx: nat, kept: nat, budget: nat)
    requires Accounted(messages, s, budget) && idx < |messages| && !s.selected[idx]
    requires s.used + Estimate(messages[idx]) <= budget
    ensures Accounted(messages, Take(s, idx, Estimate(messages[idx])).(recentKept := kept), budget)
  {
    AssembleInsert(messages, s, Take(s, idx, Estimate(messages[idx])).(recentKept := kept), idx, messages[idx], 0);
  }

  lemma ShortenAccounted(messages: seq<Message>, s: Selection, idx: nat, limits: Limits)
    requires Accounted(messages, s, limits.inputBudget) && idx < |messages| && !s.selected[idx]
    requires s.used + Estimate(messages[idx]) > limits.inputBudget && limits.inputBudget - s.used > 12
    requires AllFitMemory(messages)
    ensures Accounted(messages, Shorten(messages, s, idx, limits), limits.inputBudget)
  {
    var room, s' := limits.inputBudget - s.used, Shorten(messages, s, idx, limits);
    TruncateOvershoots(messages[idx], room);
    AssembleInsert(messages, s, s', idx, Truncate(messages[idx], room), 0);
    assert IsShortening(messages, s', limits.inputBudget, idx, room);
  }

  lemma {:induction false} MemoryPassAccounted(messages: seq<Message>, candidates: seq<nat>, memoryBudget: nat, budget: nat)
    requires AreIndices(messages, candidates) && memoryBudget <= budget
    ensures var s := MemoryPass(messages, candidates, memoryBudget);
            Accounted(messages, s, budget) && s.replacements == map[] && s.recentKept == 0
            && forall i :: 0 <= i < |messages| && s.selected[i] ==> i in candidates
  {
    if candidates == [] {
      AssembleNothing(messages, Start(|messages|), 0);
    } else {
      var before, idx := candidates[..|candidates| - 1], candidates[|candidates| - 1];
      MemoryPassAccounted(messages, before, memoryBudget, budget);
      var s := MemoryPass(messages, before, memoryBudget);
      assert idx !in before;
      if s.used + Estimate(messages[idx]) <= memoryBudget {
        TakeAccounted(messages, s, idx, 0, budget);
      }
    }
  }

  lemma {:induction false} RecentPassAccounted(messages: seq<Message>, s: Selection, n: nat, limits: Limits)
    requires n <= |messages| && Accounted(messages, s, limits.inputBudget) && AllFitMemory(messages)
    ensures Accounted(messages, RecentPass(messages, s, n, limits), limits.inputBudget)
    decreases n
  {
    if n > 0 {
      if Fits(messages, s, n - 1, limits) {
        var s' := KeepRecent(messages, s, n - 1);
        TakeAccounted(messages, s, n - 1, s.recentKept + 1, limits.inputBudget);
        if s'.used < limits.inputBudget {
          RecentPassAccounted(messages, s', n - 1, limits);
        }
      } else if WorthShortening(s, n - 1, limits) {
        ShortenAccounted(messages, s, n - 1, limits);
        RecentPassAccounted(messages, Shorten(messages, s, n - 1, limits), n - 1, limits);
      } else {
        RecentPassAccounted(messages, s, n - 1, limits);
      }
    }
  }

  lemma SelectAccounted(messages: seq<Message>, candidates: seq<nat>, plan: Plan)
    requires plan.Ok() && AreIndices(messages, candidates) && AllFitMemory(messages)
    ensures Accounted(messages, Select(messages, candidates, plan), plan.inputBudget)
  {
    MemoryPassAccounted(messages, candidates, plan.memoryBudget, plan.inputBudget);
    RecentPassAccounted(messages, MemoryPass(messages, candidates, plan.memoryBudget), |messages|, plan.RecentLimits());
  }

  lemma NothingShortened(messages: seq<Message>, s: Selection, budget: nat)
    requires Accounted(messages, s, budget) && true !in s.selected
    ensures s.replacements == map[]
  {
  }

  lemma KeepOneKeepsLast(messages: seq<Message>, s: Selection, budget: nat, from: nat)
    requires from < |messages| && Accounted(messages, s, budget) && true !in s.selected
    ensures Assemble(messages, KeepOne(s), from) == [messages[|messages| - 1]]
    decreases |messages| - from
  {
    NothingShortened(messages, s, budget);
    if from < |messages| - 1 {
      assert s.selected[from] != true;
      KeepOneKeepsLast(messages, s, budget, from + 1);
    } else {
      assert Assemble(messages, KeepOne(s), from + 1) == [];
    }
  }

  // ---- When the budget is exceeded ---------------------------------------------------------------

  /** What the messages from `from` on cost that are not recalled memories already taken, and how many they are. */
  function TailCost(messages: seq<Message>, remembered: seq<bool>, from: nat): nat
    requires from <= |messages| == |remembered|
    decreases |messages| - from
  {
    if from == |messages| then 0
    else (if remembered[from] then 0 else Estimate(messages[from])) + TailCost(messages, remembered, from + 1)
  }

  function TailCount(remembered: seq<bool>, from: nat): nat
    requires from <= |remembered|
    decreases |remembered| - from
  {
    if from == |remembered| then 0 else (if remembered[from] then 0 else 1) + TailCount(remembered, from + 1)
  }

  /** What is left of the budget beside the recalled memories and the messages from `from` on. */
  function Room(messages: seq<Message>, memories: Selection, limits: Limits, from: nat): int
    requires from <= |messages| == |memories.selected|
  {
    limits.inputBudget - memories.used - TailCost(messages, memories.selected, from)
  }

  /** The k-th message is the newest that does not fit beside the recalled memories and the messages after it, these
      are fewer than the recent minimum, and more than twelve tokens are left for it. */
  predicate ShortensAt(messages: seq<Message>, memories: Selection, limits: Limits, k: nat) {
    && k < |messages| == |memories.selected| && !memories.selected[k]
    && TailCount(memories.selected, k + 1) < limits.minRecent
    && 12 < Room(messages, memories, limits, k + 1) < Estimate(messages[k])
  }

  ghost predicate ShortensSome(messages: seq<Message>, memories: Selection, limits: Limits) {
    exists k: nat :: ShortensAt(messages, memories, limits, k)
  }

  predicate AllTooLarge(messages: seq<Message>, budget: nat) {
    forall i :: 0 <= i < |messages| ==> Estimate(messages[i]) > budget
  }

  lemma {:induction false} TailCostGrows(messages: seq<Message>, remembered: seq<bool>, a: nat, b: nat)
    requires a <= b <= |messages| == |remembered|
    ensures TailCost(messages, remembered, b) <= TailCost(messages, remembered, a)
    decreases b - a
  {
    if a < b {
      TailCostGrows(messages, remembered, a + 1, b);
    }
  }

  /** Only one message can be the one that is shortened. */
  lemma NotShortenedElsewhere(messages: seq<Message>, memories: Selection, limits: Limits, n: nat)
    requires n <= |messages| == |memories.selected|
    ensures Room(messages, memories, limits, n) >= 0 ==> forall k: nat :: ShortensAt(messages, memories, limits, k) ==> k < n
    ensures Room(messages, memories, limits, n) <= 12 ==> forall k: nat :: ShortensAt(messages, memories, limits, k) ==> k >= n
  {
    forall k: nat | ShortensAt(messages, memories, limits, k)
      ensures Room(messages, memories, limits, n) >= 0 ==> k < n
      ensures Room(messages, memories, limits, n) <= 12 ==> k >= n
    {
      if k < n {
        TailCostGrows(messages, memories.selected, k + 1, n);
      } else {
        TailCostGrows(messages, memories.selected, n, k);
      }
    }
  }

  lemma {:induction false} UsedUp(messages: seq<Message>, s: Selection, n: nat, limits: Limits)
    requires n <= |messages| == |s.selected| && s.used >= limits.inputBudget
    ensures RecentPass(messages, s, n, limits) == s
    decreases n
  {
    if n > 0 {
      UsedUp(messages, s, n - 1, limits);
    }
  }

  lemma {:induction false} NoMoreShortening(messages: seq<Message>, s: Selection, n: nat, limits: Limits)
    requires n <= |messages| == |s.selected| && (s.recentKept >= limits.minRecent || s.used + 12 >= limits.inputBudget)
    ensures RecentPass(messages, s, n, limits).replacements == s.replacements
    decreases n
  {
    if n > 0 {
      if Fits(messages, s, n - 1, limits) {
        NoMoreShortening(messages, KeepRecent(messages, s, n - 1), n - 1, limits);
      } else {
        NoMoreShortening(messages, s, n - 1, limits);
      }
    }
  }

  /** The pass has come down to `n` and everything from there on is taken. */
  predicate TookAllFrom(messages: seq<Message>, memories: Selection, s: Selection, n: nat, limits: Limits) {
    && n <= |messages| == |memories.selected| == |s.selected| && s.selected[..n] == memories.selected[..n]
    && s.used <= limits.inputBudget && limits.inputBudget - s.used == Room(messages, memories, limits, n)
    && s.recentKept == TailCount(memories.selected, n) && s.replacements == map[]
  }

  /** What the pass shortens: nothing, or the one message of `ShortensAt`, into the room that is left for it. */
  ghost predicate ShortensRight(messages: seq<Message>, memories: Selection, limits: Limits, s: Selection) {
    && (!ShortensSome(messages, memories, limits) ==> s.replacements == map[])
    && (forall k: nat :: ShortensAt(messages, memories, limits, k) ==>
          s.replacements == map[k := Truncate(messages[k], Room(messages, memories, limits, k + 1))])
  }

  lemma TookAllBelow(messages: seq<Message>, memories: Selection, s: Selection, idx: nat, limits: Limits)
    requires TookAllFrom(messages, memories, s, idx + 1, limits)
    ensures s.selected[idx] == memories.selected[idx] && s.selected[..idx] == memories.selected[..idx]
    ensures s.selected[idx] ==> TookAllFrom(messages, memories, s, idx, limits)
  {
    assert s.selected[..idx + 1][idx] == memories.selected[..idx + 1][idx];
    assert s.selected[..idx + 1][..idx] == memories.selected[..idx + 1][..idx];
  }

  lemma NothingLeftToShorten(messages: seq<Message>, memories: Selection, s: Selection, limits: Limits)
    requires TookAllFrom(messages, memories, s, 0, limits)
    ensures ShortensRight(messages, memories, limits, s)
  {
    NotShortenedElsewhere(messages, memories, limits, 0);
  }

  lemma {:induction false} PassShortensRight(messages: seq<Message>, memories: Selection, s: Selection, n: nat, limits: Limits)
    requires TookAllFrom(messages, memories, s, n, limits) && AllFitMemory(messages)
    ensures ShortensRight(messages, memories, limits, RecentPass(messages, s, n, limits))
    decreases n
  {
    if n == 0 {
      NothingLeftToShorten(messages, memories, s, limits);
    } else {
      var idx := n - 1;
      TookAllBelow(messages, memories, s, idx, limits);
      if s.selected[idx] {
        PassShortensRight(messages, memories, s, idx, limits);
      } else if Fits(messages, s, idx, limits) {
        KeptShortensRight(messages, memories, s, idx, limits);
        if s.used + Estimate(messages[idx]) < limits.inputBudget {
          PassShortensRight(messages, memories, KeepRecent(messages, s, idx), idx, limits);
        }
      } else if WorthShortening(s, idx, limits) {
        FirstShortened(messages, memories, s, idx, limits);
      } else {
        NotShortened(messages, memories, s, idx, limits);
      }
    }
  }

  lemma KeptShortensRight(messages: seq<Message>, memories: Selection, s: Selection, idx: nat, limits: Limits)
    requires TookAllFrom(messages, memories, s, idx + 1, limits) && Fits(messages, s, idx, limits)
    requires !memories.selected[idx]
    ensures TookAllFrom(messages, memories, KeepRecent(messages, s, idx), idx, limits)
    ensures s.used + Estimate(messages[idx]) >= limits.inputBudget ==> ShortensRight(messages, memories, limits, KeepRecent(messages, s, idx))
  {
    assert s.selected[..idx + 1][..idx] == memories.selected[..idx + 1][..idx];
    NotShortenedElsewhere(messages, memories, limits, idx);
  }

  lemma ShortenedHere(messages: seq<Message>, memories: Selection, s: Selection, idx: nat, limits: Limits)
    requires TookAllFrom(messages, memories, s, idx + 1, limits) && WorthShortening(s, idx, limits)
    requires s.used + Estimate(messages[idx]) > limits.inputBudget && !memories.selected[idx]
    ensures ShortensAt(messages, memories, limits, idx)
    ensures forall k: nat :: ShortensAt(messages, memories, limits, k) ==> k == idx
  {
    NotShortenedElsewhere(messages, memories, limits, idx + 1);
    NotShortenedElsewhere(messages, memories, limits, idx);
  }

  lemma FirstShortened(messages: seq<Message>, memories: Selection, s: Selection, idx: nat, limits: Limits)
    requires TookAllFrom(messages, memories, s, idx + 1, limits) && WorthShortening(s, idx, limits) && FitsMemory(messages[idx])
    requires s.used + Estimate(messages[idx]) > limits.inputBudget && !memories.selected[idx]
    ensures ShortensRight(messages, memories, limits, RecentPass(messages, Shorten(messages, s, idx, limits), idx, limits))
  {
    ShortenUsesUp(messages, s, idx, limits);
    UsedUp(messages, Shorten(messages, s, idx, limits), idx, limits);
    var done := RecentPass(messages, Shorten(messages, s, idx, limits), idx, limits);
    assert done.replacements == map[idx := Truncate(messages[idx], Room(messages, memories, limits, idx + 1))];
    ShortenedHere(messages, memories, s, idx, limits);
    OnlyThere(messages, memories, done, idx, limits);
  }

  lemma OnlyThere(messages: seq<Message>, memories: Selection, done: Selection, idx: nat, limits: Limits)
    requires |messages| == |memories.selected| && ShortensAt(messages, memories, limits, idx)
    requires forall k: nat :: ShortensAt(messages, memories, limits, k) ==> k == idx
    requires done.replacements == map[idx := Truncate(messages[idx], Room(messages, memories, limits, idx + 1))]
    ensures ShortensRight(messages, memories, limits, done)
  {
    assert ShortensSome(messages, memories, limits);
    forall k: nat | ShortensAt(messages, memories, limits, k)
      ensures done.replacements == map[k := Truncate(messages[k], Room(messages, memories, limits, k + 1))]
    {
      assert k == idx;
    }
  }

  lemma ShortenUsesUp(messages: seq<Message>, s: Selection, idx: nat, limits: Limits)
    requires idx < |messages| == |s.selected| && FitsMemory(messages[idx]) && s.replacements == map[]
    requires 12 < limits.inputBudget - s.used < Estimate(messages[idx])
    ensures var s' := Shorten(messages, s, idx, limits);
            s'.used == limits.inputBudget && s'.replacements == map[idx := Truncate(messages[idx], limits.inputBudget - s.used)]
  {
    TruncateOvershoots(messages[idx], limits.inputBudget - s.used);
  }

  lemma NotShortened(messages: seq<Message>, memories: Selection, s: Selection, idx: nat, limits: Limits)
    requires TookAllFrom(messages, memories, s, idx + 1, limits) && !s.selected[idx] && !WorthShortening(s, idx, limits)
    requires s.used + Estimate(messages[idx]) > limits.inputBudget && !memories.selected[idx]
    ensures ShortensRight(messages, memories, limits, RecentPass(messages, s, idx, limits))
  {
    NothingToShorten(messages, memories, s, idx, limits);
    NoMoreShortening(messages, s, idx, limits);
  }

  lemma NothingToShorten(messages: seq<Message>, memories: Selection, s: Selection, idx: nat, limits: Limits)
    requires TookAllFrom(messages, memories, s, idx + 1, limits) && !s.selected[idx] && !WorthShortening(s, idx, limits)
    requires s.used + Estimate(messages[idx]) > limits.inputBudget && !memories.selected[idx]
    ensures !ShortensSome(messages, memories, limits)
  {
    NotShortenedElsewhere(messages, memories, limits, idx + 1);
    NotShortenedElsewhere(messages, memories, limits, idx);
    assert !ShortensAt(messages, memories, limits, idx);
  }

  lemma {:induction false} MemoriesAreFirst(messages: seq<Message>, candidates: seq<nat>, memoryBudget: nat)
    requires AreIndices(messages, candidates)
    ensures MemoryPass(messages, candidates, memoryBudget).replacements == map[]
    ensures MemoryPass(messages, candidates, memoryBudget).recentKept == 0
  {
    if candidates != [] {
      MemoriesAreFirst(messages, candidates[..|candidates| - 1], memoryBudget);
    }
  }

  lemma SelectShortensRight(messages: seq<Message>, candidates: seq<nat>, plan: Plan)
    requires plan.Ok() && AreIndices(messages, candidates) && AllFitMemory(messages)
    ensures ShortensRight(messages, MemoryPass(messages, candidates, plan.memoryBudget), plan.RecentLimits(), Select(messages, candidates, plan))
  {
    var memories := MemoryPass(messages, candidates, plan.memoryBudget);
    MemoriesAreFirst(messages, candidates, plan.memoryBudget);
    MemoryPassWithin(messages, candidates, plan.memoryBudget);
    PassShortensRight(messages, memories, memories, |messages|, plan.RecentLimits());
  }

  /** A truncated message tells the room it was truncated into. */
  lemma RoomUnique(m: Message, a: nat, b: nat)
    requires FitsMemory(m) && 12 < a < Estimate(m) && 12 < b < Estimate(m) && Truncate(m, a) == Truncate(m, b)
    ensures a == b
  {
    TruncateOvershoots(m, a);
    TruncateOvershoots(m, b);
    var x, y := m.content[..Min(4 * a - 12, |m.content|)], m.content[..Min(4 * b - 12, |m.content|)];
    assert |x + MARKER| == |y + MARKER|;
  }

  function Excess(m: Message, room: int): nat {
    if |m.content| + 15 == 4 * room then 4 else 5
  }

  lemma ShortenedCost(messages: seq<Message>, memories: Selection, s: Selection, limits: Limits, k: nat)
    requires Accounted(messages, s, limits.inputBudget) && ShortensRight(messages, memories, limits, s)
    requires ShortensAt(messages, memories, limits, k) && AllFitMemory(messages)
    ensures Total(Assemble(messages, KeepOne(s), 0)) == limits.inputBudget + Excess(messages[k], Room(messages, memories, limits, k + 1))
    ensures limits.inputBudget > 0
  {
    var room := Room(messages, memories, limits, k + 1);
    assert s.replacements == map[k := Truncate(messages[k], room)] && k in s.replacements;
    var idx: nat, left: nat :| IsShortening(messages, s, limits.inputBudget, idx, left);
    assert idx in s.replacements && s.selected[idx] in s.selected;
    RoomUnique(messages[k], room, left);
    TruncateOvershoots(messages[k], room);
  }

  lemma {:induction false} AssembleAtLeast(messages: seq<Message>, s: Selection, from: nat, i: nat)
    requires from <= i < |messages| == |s.selected| && s.selected[i] && s.replacements == map[]
    ensures Total(Assemble(messages, s, from)) >= Estimate(messages[i])
    decreases |messages| - from
  {
    if s.selected[from] {
      TotalCons(messages[from], Assemble(messages, s, from + 1));
    } else {
      assert [] + Assemble(messages, s, from + 1) == Assemble(messages, s, from + 1);
    }
    if from < i {
      AssembleAtLeast(messages, s, from + 1, i);
    }
  }

  lemma WholeCost(messages: seq<Message>, s: Selection, limits: Limits)
    requires messages != [] && Accounted(messages, s, limits.inputBudget) && Full(messages, s, 0, limits)
    requires s.replacements == map[] && limits.inputBudget > 0
    ensures if AllTooLarge(messages, limits.inputBudget) then Assemble(messages, KeepOne(s), 0) == [Last(messages)]
            else Total(Assemble(messages, KeepOne(s), 0)) <= limits.inputBudget
  {
    if true in s.selected {
      var i :| 0 <= i < |messages| && s.selected[i];
      AssembleAtLeast(messages, s, 0, i);
    } else {
      AssembleNothing(messages, s, 0);
      forall i | 0 <= i < |messages|
        ensures Estimate(messages[i]) > limits.inputBudget
      {
        assert s.selected[i] != true && !Fits(messages, s, i, limits);
      }
      KeepOneKeepsLast(messages, s, limits.inputBudget, 0);
    }
  }

  lemma BudgetedIs(messages: seq<Message>, candidates: seq<nat>, plan: Plan)
    requires AreIndices(messages, candidates) && messages != [] && plan.windowTokens > 0 && 0 < plan.inputBudget < Total(messages)
    ensures Budgeted(messages, candidates, plan) == Assemble(messages, KeepOne(Select(messages, candidates, plan)), 0)
  {
  }

  /** If one message is shortened, the result costs the budget and exactly four or five tokens more. */
  lemma CostWhenShortened(messages: seq<Message>, candidates: seq<nat>, plan: Plan, k: nat)
    requires plan.Ok() && AreIndices(messages, candidates) && plan.windowTokens > 0 && AllFitMemory(messages)
    requires Total(messages) > plan.inputBudget
    requires ShortensAt(messages, MemoryPass(messages, candidates, plan.memoryBudget), plan.RecentLimits(), k)
    ensures var memories := MemoryPass(messages, candidates, plan.memoryBudget);
            Total(Budgeted(messages, candidates, plan))
            == plan.inputBudget + Excess(messages[k], Room(messages, memories, plan.RecentLimits(), k + 1))
  {
    var memories, s := MemoryPass(messages, candidates, plan.memoryBudget), Select(messages, candidates, plan);
    SelectAccounted(messages, candidates, plan);
    SelectShortensRight(messages, candidates, plan);
    ShortenedCost(messages, memories, s, plan.RecentLimits(), k);
    BudgetedIs(messages, candidates, plan);
  }

  /** If none is, it is the newest message alone when each message is too large by itself, and else within the budget. */
  lemma CostWhenWhole(messages: seq<Message>, candidates: seq<nat>, plan: Plan)
    requires plan.Ok() && AreIndices(messages, candidates) && messages != [] && plan.windowTokens > 0 && AllFitMemory(messages)
    requires Total(messages) > plan.inputBudget
    requires !ShortensSome(messages, MemoryPass(messages, candidates, plan.memoryBudget), plan.RecentLimits())
    ensures if AllTooLarge(messages, plan.inputBudget) then Budgeted(messages, candidates, plan) == [Last(messages)]
            else Total(Budgeted(messages, candidates, plan)) <= plan.inputBudget
  {
    if plan.inputBudget > 0 {
      SelectAccounted(messages, candidates, plan);
      SelectShortensRight(messages, candidates, plan);
      SelectFull(messages, candidates, plan);
      WholeCost(messages, Select(messages, candidates, plan), plan.RecentLimits());
    }
  }

  lemma NewestAlone(messages: seq<Message>)
    requires messages != []
    ensures Total([Last(messages)]) == Estimate(Last(messages))
  {
    TotalCons(Last(messages), []);
    assert [Last(messages)] + [] == [Last(messages)];
  }

  /** The budget is exceeded exactly when the messages do not all fit and either each of them is too large by itself, or
      there is one to shorten. With no window configured nothing is dropped. */
  lemma BudgetExceededIff(messages: seq<Message>, candidates: seq<nat>, plan: Plan)
    requires plan.Ok() && AreIndices(messages, candidates) && messages != []
    requires plan.windowTokens > 0 && AllFitMemory(messages)
    ensures Total(Budgeted(messages, candidates, plan)) > plan.inputBudget <==>
              && Total(messages) > plan.inputBudget
              && (|| AllTooLarge(messages, plan.inputBudget)
                  || ShortensSome(messages, MemoryPass(messages, candidates, plan.memoryBudget), plan.RecentLimits()))
  {
    var memories, limits := MemoryPass(messages, candidates, plan.memoryBudget), plan.RecentLimits();
    if Total(messages) > plan.inputBudget {
      if ShortensSome(messages, memories, limits) {
        var k: nat :| ShortensAt(messages, memories, limits, k);
        CostWhenShortened(messages, candidates, plan, k);
      } else {
        NewestAlone(messages);
        CostWhenWhole(messages, candidates, plan);
      }
    }
  }

  /** In particular the result costs at most the budget, or exactly four or five tokens more, or it is the newest message
      alone. */
  lemma BudgetBound(messages: seq<Message>, candidates: seq<nat>, plan: Plan)
    requires plan.Ok() && AreIndices(messages, candidates) && messages != []
    requires plan.windowTokens > 0 && AllFitMemory(messages)
    ensures var out, budget := Budgeted(messages, candidates, plan), plan.inputBudget;
            || Total(out) <= budget
            || Total(out) == budget + 4 || Total(out) == budget + 5
            || out == [Last(messages)]
  {
    var memories, limits := MemoryPass(messages, candidates, plan.memoryBudget), plan.RecentLimits();
    if Total(messages) > plan.inputBudget {
      if ShortensSome(messages, memories, limits) {
        var k: nat :| ShortensAt(messages, memories, limits, k);
        CostWhenShortened(messages, candidates, plan, k);
      } else {
        CostWhenWhole(messages, candidates, plan);
      }
    }
  }

  /** Without a recent minimum the budget is kept as soon as one message fits it. */
  lemma StrictWithoutRecentMinimum(messages: seq<Message>, candidates: seq<nat>, plan: Plan, i: nat)
    requires plan.Ok() && AreIndices(messages, candidates) && i < |messages|
    requires plan.windowTokens > 0 && AllFitMemory(messages)
    requires plan.minRecent == 0 && Estimate(messages[i]) <= plan.inputBudget
    ensures Total(Budgeted(messages, candidates, plan)) <= plan.inputBudget
  {
    if Total(messages) > plan.inputBudget {
      CostWhenWhole(messages, candidates, plan);
    }
  }

  /** A single message of 4 * budget - 15 characters, the shortest that does not fit, ends up costing four tokens more than
      the budget; a longer one costs five more. */
  lemma OneMessageOvershoots(m: Message, plan: Plan)
    requires plan.Ok() && plan.windowTokens > 0 && plan.minRecent >= 1 && plan.inputBudget > 12
    requires FitsMemory(m) && |m.content| + 15 >= 4 * plan.inputBudget
    ensures Total(Budgeted([m], [], plan)) == plan.inputBudget + (if |m.content| + 15 == 4 * plan.inputBudget then 4 else 5)
  {
    var memories := MemoryPass([m], [], plan.memoryBudget);
    assert memories == Start(1);
    NewestAlone([m]);
    assert TailCost([m], memories.selected, 1) == 0 && TailCount(memories.selected, 1) == 0;
    CostWhenShortened([m], [], plan, 0);
  }

  /** With a budget of 20 tokens: 65 characters cost 24 tokens in the end, and 66 cost 25. */
  lemma Overshoots20()
    ensures Total(Budgeted([Message(User, seq(65, _ => 'u'))], [], PlanOf(20, 0, 35, 1))) == 24
    ensures Total(Budgeted([Message(User, seq(66, _ => 'u'))], [], PlanOf(20, 0, 35, 1))) == 25
  {
    OneMessageOvershoots(Message(User, seq(65, _ => 'u')), PlanOf(20, 0, 35, 1));
    OneMessageOvershoots(Message(User, seq(66, _ => 'u')), PlanOf(20, 0, 35, 1));
  }

  // ---- What the result is ------------------------------------------------------------------------

  /** `out` holds the messages at the indices `kept`, in order; the one at `short` (if any) lost its tail to the marker. */
  ghost predicate IsThinning(messages: seq<Message>, out: seq<Message>, kept: seq<nat>, short: set<nat>) {
    && |kept| == |out|
    && (forall i :: 0 <= i < |kept| ==> kept[i] < |messages|)
    && (forall i, j :: 0 <= i < j < |kept| ==> kept[i] < kept[j])
    && (forall i :: 0 <= i < |kept| && kept[i] !in short ==> out[i] == messages[kept[i]])
    && (forall i :: 0 <= i < |kept| && kept[i] in short ==> IsShortened(messages[kept[i]], out[i]))
  }

  ghost predicate IsShortened(m: Message, m': Message) {
    exists k :: 0 <= k <= |m.content| && m' == Message(m.role, m.content[..k] + MARKER)
  }

  /** The indices of the taken messages from `from` on. */
  function Indices(selected: seq<bool>, from: nat): seq<nat>
    requires from <= |selected|
    decreases |selected| - from
  {
    if from == |selected| then [] else (if selected[from] then [from] else []) + Indices(selected, from + 1)
  }

  lemma ThinningCons(messages: seq<Message>, out: seq<Message>, kept: seq<nat>, short: set<nat>, idx: nat, m: Message)
    requires IsThinning(messages, out, kept, short) && idx < |messages|
    requires forall i :: 0 <= i < |kept| ==> idx < kept[i]
    requires if idx in short then IsShortened(messages[idx], m) else m == messages[idx]
    ensures IsThinning(messages, [m] + out, [idx] + kept, short)
  {
  }

  lemma {:induction false} AssembleThins(messages: seq<Message>, s: Selection, from: nat)
    requires from <= |messages| == |s.selected|
    requires forall k :: k in s.replacements ==> k < |messages| && IsShortened(messages[k], s.replacements[k])
    ensures IsThinning(messages, Assemble(messages, s, from), Indices(s.selected, from), s.replacements.Keys)
    ensures forall i :: 0 <= i < |Indices(s.selected, from)| ==> from <= Indices(s.selected, from)[i]
    decreases |messages| - from
  {
    if from < |messages| {
      AssembleThins(messages, s, from + 1);
      if s.selected[from] {
        ThinningCons(messages, Assemble(messages, s, from + 1), Indices(s.selected, from + 1), s.replacements.Keys, from,
                     if from in s.replacements then s.replacements[from] else messages[from]);
      }
    }
  }

  lemma {:induction false} IndicesAll(selected: seq<bool>, from: nat, i: nat)
    requires from <= i < |selected|
    ensures i in Indices(selected, from) <==> selected[i]
    decreases |selected| - from
  {
    if from < i {
      IndicesAll(selected, from + 1, i);
    } else {
      IndicesFrom(selected, from + 1);
    }
  }

  lemma {:induction false} IndicesFrom(selected: seq<bool>, from: nat)
    requires from <= |selected|
    ensures forall i :: 0 <= i < |Indices(selected, from)| ==> Indices(selected, from)[i] >= from
    decreases |selected| - from
  {
    if from < |selected| {
      IndicesFrom(selected, from + 1);
    }
  }

  lemma AtMostOneShortened(messages: seq<Message>, s: Selection, budget: nat)
    requires Accounted(messages, s, budget) && AllFitMemory(messages)
    ensures |s.replacements.Keys| <= 1
    ensures forall k :: k in s.replacements ==> k < |messages| && IsShortened(messages[k], s.replacements[k])
  {
    if s.replacements != map[] {
      var idx: nat, room: nat :| IsShortening(messages, s, budget, idx, room);
      TruncateOvershoots(messages[idx], room);
      assert s.replacements.Keys == {idx};
    }
  }

  lemma SelectFull(messages: seq<Message>, candidates: seq<nat>, plan: Plan)
    requires plan.Ok() && AreIndices(messages, candidates)
    ensures Full(messages, Select(messages, candidates, plan), 0, plan.RecentLimits())
  {
    MemoryPassFits(messages, candidates, plan);
    RecentPassFills(messages, MemoryPass(messages, candidates, plan.memoryBudget), |messages|, plan.RecentLimits());
  }

  /** When the messages do not all fit, the result is the input in order with some messages dropped and at most one
      cut short, and no dropped message would still have fitted. */
  lemma BudgetedThins(messages: seq<Message>, candidates: seq<nat>, plan: Plan) returns (kept: seq<nat>, short: set<nat>)
    requires plan.Ok() && AreIndices(messages, candidates) && plan.windowTokens > 0 && 0 < plan.inputBudget < Total(messages)
    requires AllFitMemory(messages)
    ensures |short| <= 1 && IsThinning(messages, Budgeted(messages, candidates, plan), kept, short)
    ensures forall i :: 0 <= i < |messages| && i !in kept ==>
              Total(Budgeted(messages, candidates, plan)) + Estimate(messages[i]) > plan.inputBudget
    ensures short == Select(messages, candidates, plan).replacements.Keys
    ensures forall i :: 0 <= i < |messages| ==> (i in kept <==> KeepOne(Select(messages, candidates, plan)).selected[i])
  {
    var s := Select(messages, candidates, plan);
    SelectAccounted(messages, candidates, plan);
    SelectFull(messages, candidates, plan);
    AtMostOneShortened(messages, s, plan.inputBudget);
    kept, short := Indices(KeepOne(s).selected, 0), s.replacements.Keys;
    AssembleThins(messages, KeepOne(s), 0);
    forall i | 0 <= i < |messages|
      ensures i in kept <==> KeepOne(s).selected[i]
    {
      IndicesAll(KeepOne(s).selected, 0, i);
    }
    forall i | 0 <= i < |messages| && i !in kept
      ensures Total(Assemble(messages, KeepOne(s), 0)) + Estimate(messages[i]) > plan.inputBudget
    {
      IndicesAll(KeepOne(s).selected, 0, i);
      DroppedDidNotFit(messages, s, i, plan.RecentLimits());
    }
  }

  lemma DroppedDidNotFit(messages: seq<Message>, s: Selection, i: nat, limits: Limits)
    requires Accounted(messages, s, limits.inputBudget) && i < |messages| && !KeepOne(s).selected[i]
    requires AllFitMemory(messages) && Full(messages, s, 0, limits)
    ensures Total(Assemble(messages, KeepOne(s), 0)) + Estimate(messages[i]) > limits.inputBudget
  {
    if s.replacements != map[] {
      var idx: nat, room: nat :| IsShortening(messages, s, limits.inputBudget, idx, room);
      assert s.selected[idx] in s.selected;
      TruncateOvershoots(messages[idx], room);
    } else {
      assert s.used < limits.inputBudget ==> !Fits(messages, s, i, limits);
      if true !in s.selected {
        AssembleNothing(messages, s, 0);
      }
    }
  }
}

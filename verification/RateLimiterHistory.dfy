/**
 What the rate limiter guarantees over every history of requests whose times do
 not go backwards (src/http.rs:229-283).
 */
module RateLimiterHistory {
  import opened Basics
  import opened Text
  import opened RateLimiter

  datatype Request = Request(now: nat, sourceKey: string) {
    function Source(): string {
      NormalizeSource(sourceKey)
    }

    function Window(cfg: Config): nat
      requires cfg.Ok()
    {
      WindowStart(now, cfg.windowSecs)
    }
  }

  type History = seq<Request>

  function TableAfter(cfg: Config, h: History): Table
    requires cfg.Ok()
  {
    if h == [] then map[] else Allow(cfg, TableAfter(cfg, Front(h)), Last(h).now, Last(h).sourceKey).0
  }

  /** Whether the last request of a history is allowed. */
  predicate LastAllowed(cfg: Config, h: History)
    requires cfg.Ok() && h != []
  {
    Allow(cfg, TableAfter(cfg, Front(h)), Last(h).now, Last(h).sourceKey).1
  }

  /** The counter the last request of a history is charged to. */
  function LastBucket(cfg: Config, h: History): string
    requires cfg.Ok() && h != []
  {
    BucketOf(cfg, Retained(TableAfter(cfg, Front(h)), Last(h).Window(cfg), cfg.windowSecs), Last(h).Source())
  }

  function BucketAt(cfg: Config, h: History, i: nat): string
    requires cfg.Ok() && i < |h|
  {
    LastBucket(cfg, h[..i + 1])
  }

  predicate NeverBackwards(h: History) {
    forall i, j :: 0 <= i < j < |h| ==> h[i].now <= h[j].now
  }

  /** The limiter is on, and its counters cannot saturate below the limit. */
  predicate Limits(cfg: Config) {
    cfg.Ok() && 0 < cfg.maxRequests < USIZE_MAX
  }

  // ---- Counting ------------------------------------------------------------------------------

  /** Requests of a source that were allowed at times in `[from, to)`. */
  function AllowedBetween(cfg: Config, h: History, source: string, from: nat, to: nat): nat
    requires cfg.Ok()
  {
    if h == [] then 0
    else
      AllowedBetween(cfg, Front(h), source, from, to)
      + (if Last(h).Source() == source && from <= Last(h).now < to && LastAllowed(cfg, h) then 1 else 0)
  }

  function AskedBetween(h: History, source: string, from: nat, to: nat): nat {
    if h == [] then 0
    else
      AskedBetween(Front(h), source, from, to)
      + (if Last(h).Source() == source && from <= Last(h).now < to then 1 else 0)
  }

  /** Requests charged to a counter in one window, and those of them that were allowed. */
  function Charges(cfg: Config, h: History, bucket: string, window: nat): nat
    requires cfg.Ok()
  {
    if h == [] then 0
    else
      Charges(cfg, Front(h), bucket, window)
      + (if LastBucket(cfg, h) == bucket && Last(h).Window(cfg) == window then 1 else 0)
  }

  function AllowedCharges(cfg: Config, h: History, bucket: string, window: nat): nat
    requires cfg.Ok()
  {
    if h == [] then 0
    else
      AllowedCharges(cfg, Front(h), bucket, window)
      + (if LastBucket(cfg, h) == bucket && Last(h).Window(cfg) == window && LastAllowed(cfg, h) then 1 else 0)
  }

  // ---- The table after a history ---------------------------------------------------------------

  /** Every counter of the table belongs to the last window or the one before; those of the last window
      hold what was charged to them, and later windows are untouched. */
  ghost predicate CountersOk(cfg: Config, h: History)
    requires cfg.Ok() && h != []
  {
    var t, window := TableAfter(cfg, h), Last(h).Window(cfg);
    forall k :: CounterOk(t, k, window, cfg.windowSecs, Charges(cfg, h, k, window))
  }

  lemma {:induction false} NoFutureCharges(cfg: Config, h: History, bucket: string, window: nat)
    requires cfg.Ok() && forall i :: 0 <= i < |h| ==> h[i].Window(cfg) < window
    ensures Charges(cfg, h, bucket, window) == 0
  {
    if h != [] {
      NoFutureCharges(cfg, Front(h), bucket, window);
    }
  }

  lemma {:induction false} WindowMonotone(a: nat, b: nat, windowSecs: nat)
    requires windowSecs >= 1 && a <= b
    ensures WindowStart(a, windowSecs) <= WindowStart(b, windowSecs) <= b < WindowStart(b, windowSecs) + windowSecs
  {
    if a >= windowSecs {
      WindowMonotone(a - windowSecs, b - windowSecs, windowSecs);
    }
  }

  lemma {:induction false} WindowGap(a: nat, b: nat, windowSecs: nat)
    requires windowSecs >= 1 && WindowStart(a, windowSecs) < WindowStart(b, windowSecs)
    ensures WindowStart(a, windowSecs) + windowSecs <= WindowStart(b, windowSecs)
  {
    if a >= windowSecs && b >= windowSecs {
      WindowGap(a - windowSecs, b - windowSecs, windowSecs);
    }
  }

  /** The table the last request finds, after expired counters are dropped. */
  function LastKept(cfg: Config, h: History): Table
    requires cfg.Ok() && h != []
  {
    Retained(TableAfter(cfg, Front(h)), Last(h).Window(cfg), cfg.windowSecs)
  }

  lemma LastStep(cfg: Config, h: History)
    requires Limits(cfg) && h != []
    ensures var kept, bucket := LastKept(cfg, h), LastBucket(cfg, h);
            var entry := Charged(kept, bucket, Last(h).Window(cfg));
            && bucket == BucketOf(cfg, kept, Last(h).Source())
            && TableAfter(cfg, h) == kept[bucket := entry]
            && LastAllowed(cfg, h) == (entry.count <= cfg.maxRequests)
  {
  }

  ghost predicate CounterOk(t: Table, k: string, window: nat, windowSecs: nat, charges: nat) {
    && (k in t ==> SaturatingSub(window, windowSecs) <= t[k].windowStart <= window)
    && Min(charges, USIZE_MAX) == if k in t && t[k].windowStart == window then t[k].count else 0
  }

  lemma CounterStep(t: Table, k: string, window: nat, window': nat, windowSecs: nat, charges: nat, bucket: string)
    requires CounterOk(t, k, window, windowSecs, charges) && window <= window'
    ensures var kept := Retained(t, window', windowSecs);
            CounterOk(kept[bucket := Charged(kept, bucket, window')], k, window', windowSecs,
                      (if window == window' then charges else 0) + (if bucket == k then 1 else 0))
  {
  }

  lemma ChargesSnoc(cfg: Config, h: History, k: string)
    requires cfg.Ok() && NeverBackwards(h) && h != [] && Front(h) != []
    ensures var before, window := Front(h), Last(h).Window(cfg);
            && Last(before).Window(cfg) <= window
            && Charges(cfg, h, k, window)
            == (if Last(before).Window(cfg) == window then Charges(cfg, before, k, window) else 0)
             + (if LastBucket(cfg, h) == k then 1 else 0)
  {
    var before, window := Front(h), Last(h).Window(cfg);
    WindowMonotone(Last(before).now, Last(h).now, cfg.windowSecs);
    if Last(before).Window(cfg) < window {
      forall i | 0 <= i < |before|
        ensures before[i].Window(cfg) < window
      {
        WindowMonotone(before[i].now, Last(before).now, cfg.windowSecs);
      }
      NoFutureCharges(cfg, before, k, window);
    }
  }

  lemma CountersStep(cfg: Config, h: History, k: string)
    requires Limits(cfg) && NeverBackwards(h) && h != []
    requires Front(h) != [] ==> CountersOk(cfg, Front(h))
    ensures CounterOk(TableAfter(cfg, h), k, Last(h).Window(cfg), cfg.windowSecs, Charges(cfg, h, k, Last(h).Window(cfg)))
  {
    LastStep(cfg, h);
    var before, window := Front(h), Last(h).Window(cfg);
    if before == [] {
      CounterStep(map[], k, window, window, cfg.windowSecs, 0, LastBucket(cfg, h));
    } else {
      ChargesSnoc(cfg, h, k);
      var window0 := Last(before).Window(cfg);
      CounterStep(TableAfter(cfg, before), k, window0, window, cfg.windowSecs, Charges(cfg, before, k, window0), LastBucket(cfg, h));
    }
  }

  lemma {:induction false} TableBounded(cfg: Config, h: History)
    requires Limits(cfg)
    ensures Tracked(TableAfter(cfg, h)) <= cfg.maxSources && |TableAfter(cfg, h)| <= cfg.maxSources + 1
  {
    if h != [] {
      TableBounded(cfg, Front(h));
      AllowKeepsTableBounded(cfg, TableAfter(cfg, Front(h)), Last(h).now, Last(h).sourceKey);
    }
  }

  lemma {:induction false} TableCounts(cfg: Config, h: History)
    requires Limits(cfg) && NeverBackwards(h) && h != []
    ensures CountersOk(cfg, h)
  {
    if Front(h) != [] {
      TableCounts(cfg, Front(h));
    }
    forall k
      ensures CounterOk(TableAfter(cfg, h), k, Last(h).Window(cfg), cfg.windowSecs, Charges(cfg, h, k, Last(h).Window(cfg)))
    {
      CountersStep(cfg, h, k);
    }
  }

  // ---- One bucket per source and window --------------------------------------------------------

  /** Every request of the last window was charged to the counter that its source would be charged to now. */
  ghost predicate BucketsSettled(cfg: Config, h: History)
    requires cfg.Ok() && h != []
  {
    forall i :: 0 <= i < |h| && h[i].Window(cfg) == Last(h).Window(cfg) ==> SettledAt(cfg, h, i)
  }

  lemma BucketStays(cfg: Config, t: Table, source: string, c: Counter, other: string)
    requires BucketOf(cfg, t, other) in t || other == source
    ensures var bucket := BucketOf(cfg, t, source);
            BucketOf(cfg, t[bucket := c], other) == BucketOf(cfg, t, other) && BucketOf(cfg, t, other) in t[bucket := c]
  {
    InsertTracked(t, BucketOf(cfg, t, source), c);
  }

  lemma NothingExpires(cfg: Config, h: History)
    requires Limits(cfg) && NeverBackwards(h) && h != [] && Front(h) != []
    requires Last(Front(h)).Window(cfg) == Last(h).Window(cfg)
    ensures LastKept(cfg, h) == TableAfter(cfg, Front(h))
  {
    TableCounts(cfg, Front(h));
    var t, window := TableAfter(cfg, Front(h)), Last(h).Window(cfg);
    forall k | k in t
      ensures t[k].windowStart >= SaturatingSub(window, cfg.windowSecs)
    {
      assert CounterOk(t, k, window, cfg.windowSecs, Charges(cfg, Front(h), k, window));
    }
  }

  ghost predicate SettledAt(cfg: Config, h: History, i: nat)
    requires cfg.Ok() && i < |h|
  {
    BucketAt(cfg, h, i) == BucketOf(cfg, TableAfter(cfg, h), h[i].Source()) && BucketAt(cfg, h, i) in TableAfter(cfg, h)
  }

  lemma SameWindowBetween(cfg: Config, h: History, i: nat)
    requires cfg.Ok() && NeverBackwards(h) && i < |h| - 1 && h[i].Window(cfg) == Last(h).Window(cfg)
    ensures Last(Front(h)).Window(cfg) == Last(h).Window(cfg)
  {
    WindowMonotone(h[i].now, Last(Front(h)).now, cfg.windowSecs);
    WindowMonotone(Last(Front(h)).now, Last(h).now, cfg.windowSecs);
  }

  lemma BucketAtPrefix(cfg: Config, h: History, n: nat, i: nat)
    requires cfg.Ok() && i < n <= |h|
    ensures h[..n][i] == h[i] && BucketAt(cfg, h[..n], i) == BucketAt(cfg, h, i)
  {
    assert h[..n][..i + 1] == h[..i + 1];
  }

  lemma StaysSettled(cfg: Config, h: History, i: nat)
    requires Limits(cfg) && i < |h| - 1 && LastKept(cfg, h) == TableAfter(cfg, Front(h))
    requires BucketAt(cfg, h, i) == BucketOf(cfg, LastKept(cfg, h), h[i].Source()) && BucketAt(cfg, h, i) in LastKept(cfg, h)
    ensures SettledAt(cfg, h, i)
  {
    var kept := LastKept(cfg, h);
    LastStep(cfg, h);
    BucketStays(cfg, kept, Last(h).Source(), Charged(kept, LastBucket(cfg, h), Last(h).Window(cfg)), h[i].Source());
  }

  lemma EarlierSettled(cfg: Config, h: History, i: nat)
    requires Limits(cfg) && NeverBackwards(h) && i < |h| - 1 && h[i].Window(cfg) == Last(h).Window(cfg)
    requires BucketsSettled(cfg, Front(h))
    ensures SettledAt(cfg, h, i)
  {
    SameWindowBetween(cfg, h, i);
    NothingExpires(cfg, h);
    BucketAtPrefix(cfg, h, |h| - 1, i);
    assert SettledAt(cfg, Front(h), i);
    StaysSettled(cfg, h, i);
  }

  lemma LatestSettled(cfg: Config, h: History)
    requires Limits(cfg) && h != []
    ensures SettledAt(cfg, h, |h| - 1)
  {
    var kept, source := LastKept(cfg, h), Last(h).Source();
    LastStep(cfg, h);
    assert h[..|h| - 1 + 1] == h;
    BucketStays(cfg, kept, source, Charged(kept, LastBucket(cfg, h), Last(h).Window(cfg)), source);
  }

  lemma {:induction false} AllSettled(cfg: Config, h: History)
    requires Limits(cfg) && NeverBackwards(h) && h != []
    ensures BucketsSettled(cfg, h)
  {
    if Front(h) != [] {
      AllSettled(cfg, Front(h));
    }
    forall i | 0 <= i < |h| && h[i].Window(cfg) == Last(h).Window(cfg)
      ensures SettledAt(cfg, h, i)
    {
      if i < |h| - 1 {
        EarlierSettled(cfg, h, i);
      } else {
        LatestSettled(cfg, h);
      }
    }
  }

  lemma SameBucketAsLast(cfg: Config, h: History, i: nat)
    requires Limits(cfg) && NeverBackwards(h) && i < |h|
    requires h[i].Source() == Last(h).Source() && h[i].Window(cfg) == Last(h).Window(cfg)
    ensures BucketAt(cfg, h, i) == BucketAt(cfg, h, |h| - 1)
  {
    AllSettled(cfg, h);
    assert SettledAt(cfg, h, i) && SettledAt(cfg, h, |h| - 1);
  }

  lemma PrefixEndsSame(cfg: Config, h: History, i: nat, j: nat)
    requires cfg.Ok() && NeverBackwards(h) && i <= j < |h|
    requires h[i].Source() == h[j].Source() && h[i].Window(cfg) == h[j].Window(cfg)
    ensures var upTo := h[..j + 1];
            NeverBackwards(upTo) && upTo[i].Source() == Last(upTo).Source() && upTo[i].Window(cfg) == Last(upTo).Window(cfg)
  {
  }

  /** Within one window, a source is always charged to one and the same counter. */
  lemma OneBucketPerWindow(cfg: Config, h: History, i: nat, j: nat)
    requires Limits(cfg) && NeverBackwards(h) && i <= j < |h|
    requires h[i].Source() == h[j].Source() && h[i].Window(cfg) == h[j].Window(cfg)
    ensures BucketAt(cfg, h, i) == BucketAt(cfg, h, j)
  {
    PrefixEndsSame(cfg, h, i, j);
    SameBucketAsLast(cfg, h[..j + 1], i);
    BucketAtPrefix(cfg, h, j + 1, i);
    BucketAtPrefix(cfg, h, j + 1, j);
  }

  // ---- What a source gets ------------------------------------------------------------------------

  /** A counter lets through exactly the first `max_requests` requests charged to it in a window. */
  lemma {:induction false} BucketAllowance(cfg: Config, h: History, bucket: string, window: nat)
    requires Limits(cfg) && NeverBackwards(h)
    ensures AllowedCharges(cfg, h, bucket, window) == Min(Charges(cfg, h, bucket, window), cfg.maxRequests)
  {
    if h != [] {
      BucketAllowance(cfg, Front(h), bucket, window);
      if LastBucket(cfg, h) == bucket && Last(h).Window(cfg) == window {
        TableCounts(cfg, h);
        LastStep(cfg, h);
        assert CounterOk(TableAfter(cfg, h), bucket, window, cfg.windowSecs, Charges(cfg, h, bucket, window));
      }
    }
  }

  lemma WindowIff(now: nat, window: nat, windowSecs: nat)
    requires windowSecs >= 1 && IsWindow(window, windowSecs)
    ensures WindowStart(now, windowSecs) == window <==> window <= now < window + windowSecs
  {
    if window <= now < window + windowSecs {
      WindowMonotone(window, now, windowSecs);
      if WindowStart(window, windowSecs) < WindowStart(now, windowSecs) {
        WindowGap(window, now, windowSecs);
      }
    }
  }

  lemma {:induction false} SourceWithinBucket(cfg: Config, h: History, source: string, bucket: string, window: nat, to: nat)
    requires cfg.Ok() && IsWindow(window, cfg.windowSecs) && to == window + cfg.windowSecs
    requires forall i :: 0 <= i < |h| && h[i].Source() == source && h[i].Window(cfg) == window ==> BucketAt(cfg, h, i) == bucket
    ensures AllowedBetween(cfg, h, source, window, to) <= AllowedCharges(cfg, h, bucket, window)
  {
    if h != [] {
      var before := Front(h);
      forall i | 0 <= i < |before| && before[i].Source() == source && before[i].Window(cfg) == window
        ensures BucketAt(cfg, before, i) == bucket
      {
        assert before[..i + 1] == h[..i + 1] && before[i] == h[i];
        assert BucketAt(cfg, h, i) == bucket;
      }
      SourceWithinBucket(cfg, before, source, bucket, window, to);
      WindowIff(Last(h).now, window, cfg.windowSecs);
      assert h[..|h| - 1 + 1] == h;
      assert LastBucket(cfg, h) == BucketAt(cfg, h, |h| - 1);
    }
  }

  lemma SourceBucket(cfg: Config, h: History, source: string, window: nat) returns (bucket: string)
    requires Limits(cfg) && NeverBackwards(h)
    ensures forall i :: 0 <= i < |h| && h[i].Source() == source && h[i].Window(cfg) == window ==> BucketAt(cfg, h, i) == bucket
  {
    bucket := source;
    if i :| 0 <= i < |h| && h[i].Source() == source && h[i].Window(cfg) == window {
      bucket := BucketAt(cfg, h, i);
      forall j | 0 <= j < |h| && h[j].Source() == source && h[j].Window(cfg) == window
        ensures BucketAt(cfg, h, j) == bucket
      {
        OneBucketPerWindow(cfg, h, if i < j then i else j, if i < j then j else i);
      }
    }
  }

  /** In any one window no source gets more than `max_requests` requests through. */
  lemma PerWindowLimit(cfg: Config, h: History, source: string, window: nat, to: nat)
    requires Limits(cfg) && NeverBackwards(h) && IsWindow(window, cfg.windowSecs) && to == window + cfg.windowSecs
    ensures AllowedBetween(cfg, h, source, window, to) <= cfg.maxRequests
  {
    var bucket := SourceBucket(cfg, h, source, window);
    SourceWithinBucket(cfg, h, source, bucket, window, to);
    BucketAllowance(cfg, h, bucket, window);
  }

  lemma {:induction false} AllowedSplits(cfg: Config, h: History, source: string, from: nat, mid: nat, to: nat)
    requires cfg.Ok() && from <= mid <= to
    ensures AllowedBetween(cfg, h, source, from, to)
         == AllowedBetween(cfg, h, source, from, mid) + AllowedBetween(cfg, h, source, mid, to)
  {
    if h != [] {
      AllowedSplits(cfg, Front(h), source, from, mid, to);
    }
  }

  lemma AllowedWithin(cfg: Config, h: History, source: string, a: nat, mid: nat, b: nat, from: nat, to: nat)
    requires cfg.Ok() && a <= mid <= b && a <= from <= to <= b
    ensures AllowedBetween(cfg, h, source, from, to)
         <= AllowedBetween(cfg, h, source, a, mid) + AllowedBetween(cfg, h, source, mid, b)
  {
    AllowedSplits(cfg, h, source, a, mid, b);
    AllowedSplits(cfg, h, source, a, from, b);
    AllowedSplits(cfg, h, source, from, to, b);
  }

  lemma {:induction false} WindowAligned(now: nat, windowSecs: nat)
    requires windowSecs >= 1
    ensures IsWindow(WindowStart(now, windowSecs), windowSecs) && IsWindow(WindowStart(now, windowSecs) + windowSecs, windowSecs)
  {
    if now >= windowSecs {
      WindowAligned(now - windowSecs, windowSecs);
    }
  }

  lemma EnclosingWindows(from: nat, windowSecs: nat) returns (first: nat, second: nat, end: nat)
    requires windowSecs >= 1
    ensures first <= from < second == first + windowSecs && end == second + windowSecs
    ensures IsWindow(first, windowSecs) && IsWindow(second, windowSecs)
  {
    first := WindowStart(from, windowSecs);
    second := first + windowSecs;
    end := second + windowSecs;
    WindowMonotone(from, from, windowSecs);
    WindowAligned(from, windowSecs);
  }

  lemma TwoWindowsLimit(cfg: Config, h: History, source: string, first: nat, second: nat, end: nat, from: nat, to: nat)
    requires cfg.Ok() && first <= from <= to <= end && first <= second <= end
    requires AllowedBetween(cfg, h, source, first, second) <= cfg.maxRequests
    requires AllowedBetween(cfg, h, source, second, end) <= cfg.maxRequests
    ensures AllowedBetween(cfg, h, source, from, to) <= 2 * cfg.maxRequests
  {
    AllowedWithin(cfg, h, source, first, second, end, from, to);
  }

  /** In any interval as long as a window, wherever it starts, no source gets more than twice that through. */
  lemma AnyIntervalLimit(cfg: Config, h: History, source: string, from: nat)
    requires Limits(cfg) && NeverBackwards(h)
    ensures AllowedBetween(cfg, h, source, from, from + cfg.windowSecs) <= 2 * cfg.maxRequests
  {
    var first, second, end := EnclosingWindows(from, cfg.windowSecs);
    PerWindowLimit(cfg, h, source, first, second);
    PerWindowLimit(cfg, h, source, second, end);
    TwoWindowsLimit(cfg, h, source, first, second, end, from, from + cfg.windowSecs);
  }

  /** In the window, the source is only ever charged to its own counter. */
  ghost predicate OwnBucketOnly(cfg: Config, h: History, source: string, window: nat)
    requires cfg.Ok()
  {
    forall i :: 0 <= i < |h| && h[i].Source() == source && h[i].Window(cfg) == window ==> BucketAt(cfg, h, i) == source
  }

  lemma OwnBucketFront(cfg: Config, h: History, source: string, window: nat)
    requires cfg.Ok() && h != [] && OwnBucketOnly(cfg, h, source, window)
    ensures OwnBucketOnly(cfg, Front(h), source, window)
    ensures Last(h).Source() == source && Last(h).Window(cfg) == window ==> LastBucket(cfg, h) == source
  {
    forall i | 0 <= i < |h| - 1 && Front(h)[i].Source() == source && Front(h)[i].Window(cfg) == window
      ensures BucketAt(cfg, Front(h), i) == source
    {
      BucketAtPrefix(cfg, h, |h| - 1, i);
    }
    assert h[..|h| - 1 + 1] == h;
    assert LastBucket(cfg, h) == BucketAt(cfg, h, |h| - 1);
  }

  lemma {:induction false} OwnCharges(cfg: Config, h: History, source: string, window: nat, to: nat)
    requires cfg.Ok() && IsWindow(window, cfg.windowSecs) && to == window + cfg.windowSecs && source != OVERFLOW_SOURCE
    requires OwnBucketOnly(cfg, h, source, window)
    ensures AskedBetween(h, source, window, to) == Charges(cfg, h, source, window)
    ensures AllowedBetween(cfg, h, source, window, to) == AllowedCharges(cfg, h, source, window)
  {
    if h != [] {
      OwnBucketFront(cfg, h, source, window);
      OwnCharges(cfg, Front(h), source, window, to);
      WindowIff(Last(h).now, window, cfg.windowSecs);
    }
  }

  /** A source with a counter of its own is not affected by others: exactly its first `max_requests` requests pass. */
  lemma OwnCounterIsExact(cfg: Config, h: History, source: string, window: nat, to: nat)
    requires Limits(cfg) && NeverBackwards(h) && IsWindow(window, cfg.windowSecs) && to == window + cfg.windowSecs
    requires source != OVERFLOW_SOURCE && OwnBucketOnly(cfg, h, source, window)
    ensures AllowedBetween(cfg, h, source, window, to) == Min(AskedBetween(h, source, window, to), cfg.maxRequests)
  {
    OwnCharges(cfg, h, source, window, to);
    BucketAllowance(cfg, h, source, window);
  }

  /** With the limit switched off every request passes and nothing is recorded. */
  lemma {:induction false} NoLimit(cfg: Config, h: History)
    requires cfg.Ok() && cfg.maxRequests == 0
    ensures TableAfter(cfg, h) == map[] && (h != [] ==> LastAllowed(cfg, h))
  {
    if h != [] {
      NoLimit(cfg, Front(h));
    }
  }

  // ---- No more sources than counters -------------------------------------------------------------

  function SourcesOf(h: History): set<string> {
    if h == [] then {} else SourcesOf(Front(h)) + {Last(h).Source()}
  }

  lemma {:induction false} SourcesOfPrefix(h: History, n: nat)
    requires n <= |h|
    ensures SourcesOf(h[..n]) <= SourcesOf(h)
    ensures forall i :: 0 <= i < |h| ==> h[i].Source() in SourcesOf(h)
  {
    if h != [] {
      if n == |h| {
        assert h[..n] == h;
        SourcesOfPrefix(Front(h), |h| - 1);
      } else {
        assert h[..n] == Front(h)[..n];
        SourcesOfPrefix(Front(h), n);
      }
      forall i | 0 <= i < |h|
        ensures h[i].Source() in SourcesOf(h)
      {
        assert i < |h| - 1 ==> Front(h)[i] == h[i];
      }
    }
  }

  /** As long as there are no more sources than counters, every request is charged to its own source. */
  lemma {:induction false} FewSourcesOwnCounters(cfg: Config, h: History)
    requires Limits(cfg) && |SourcesOf(h)| <= cfg.maxSources
    ensures TableAfter(cfg, h).Keys <= SourcesOf(h)
    ensures h != [] ==> LastBucket(cfg, h) == Last(h).Source()
  {
    if h != [] {
      var source, kept := Last(h).Source(), LastKept(cfg, h);
      SubsetSize(SourcesOf(Front(h)), SourcesOf(h));
      FewSourcesOwnCounters(cfg, Front(h));
      if source !in kept {
        RoomForOne(kept, SourcesOf(h), source);
      }
      LastStep(cfg, h);
    }
  }

  lemma RoomForOne(kept: Table, sources: set<string>, source: string)
    requires kept.Keys <= sources && source in sources && source !in kept
    ensures Tracked(kept) < |sources|
  {
    SubsetSize(kept.Keys, sources - {source});
    assert |kept| == |kept.Keys|;
  }

  lemma {:induction false} FewSourcesOwnBuckets(cfg: Config, h: History, i: nat)
    requires Limits(cfg) && |SourcesOf(h)| <= cfg.maxSources && i < |h|
    ensures BucketAt(cfg, h, i) == h[i].Source()
  {
    SourcesOfPrefix(h, i + 1);
    SubsetSize(SourcesOf(h[..i + 1]), SourcesOf(h));
    FewSourcesOwnCounters(cfg, h[..i + 1]);
  }

  /** With no more distinct sources than counters in all, nobody shares: in every window each source gets exactly its first
      `max_requests` requests through. */
  lemma FewSourcesExact(cfg: Config, h: History, source: string, window: nat, to: nat)
    requires Limits(cfg) && NeverBackwards(h) && |SourcesOf(h)| <= cfg.maxSources
    requires IsWindow(window, cfg.windowSecs) && to == window + cfg.windowSecs && source != OVERFLOW_SOURCE
    ensures AllowedBetween(cfg, h, source, window, to) == Min(AskedBetween(h, source, window, to), cfg.maxRequests)
  {
    forall i | 0 <= i < |h| && h[i].Source() == source && h[i].Window(cfg) == window
      ensures BucketAt(cfg, h, i) == source
    {
      FewSourcesOwnBuckets(cfg, h, i);
    }
    OwnCounterIsExact(cfg, h, source, window, to);
  }
}

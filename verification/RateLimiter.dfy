/**
 The bounded fixed-window rate limiter (src/http.rs): one counter per source, a
 shared overflow counter once the table is full, and what every source gets over
 any history of requests.
 */
module RateLimiter {
  import opened Basics
  import opened Text

  const OVERFLOW_SOURCE := "__overflow__"

  function SaturatingIncrement(n: nat): nat {
    if n < USIZE_MAX then n + 1 else n
  }

  function NormalizeSource(key: string): (r: string)
    ensures r != "" && |r| <= 128
  {
    var trimmed := Trim(key);
    if trimmed == "" then "unknown"
    else ToAsciiLower(if |trimmed| <= 128 then trimmed else trimmed[..128])
  }

  /** What is left of a key: the first 128 characters of its trimmed text, or a stand-in. */
  function NamePart(key: string): string {
    if Trim(key) == "" then "unknown" else if |Trim(key)| <= 128 then Trim(key) else Trim(key)[..128]
  }

  predicate SameLetter(a: char, b: char) {
    a == b || ('A' <= a <= 'Z' && b as int == a as int + 32) || ('A' <= b <= 'Z' && a as int == b as int + 32)
  }

  /** Two keys are one source exactly when those parts differ in the case of ASCII letters only. */
  lemma SameSourceIff(a: string, b: string)
    ensures NormalizeSource(a) == NormalizeSource(b) <==>
              |NamePart(a)| == |NamePart(b)| && forall i :: 0 <= i < |NamePart(a)| ==> SameLetter(NamePart(a)[i], NamePart(b)[i])
  {
    LowerIs(NamePart(a), NamePart(b));
    UnknownIsLower();
  }

  lemma UnknownIsLower()
    ensures ToAsciiLower("unknown") == "unknown"
  {
  }

  lemma LowerIs(a: string, b: string)
    ensures ToAsciiLower(a) == ToAsciiLower(b) <==> |a| == |b| && forall i :: 0 <= i < |a| ==> SameLetter(a[i], b[i])
  {
    var x, y := ToAsciiLower(a), ToAsciiLower(b);
    if x == y {
      forall i | 0 <= i < |a|
        ensures SameLetter(a[i], b[i])
      {
        assert x[i] == y[i];
      }
    } else if |a| == |b| {
      var i :| 0 <= i < |a| && x[i] != y[i];
      assert !SameLetter(a[i], b[i]);
    }
  }

  /** The remainder of a division, by repeated subtraction. */
  function Remainder(n: nat, divisor: nat): (r: nat)
    requires divisor >= 1
    ensures r < divisor && r <= n
  {
    if n < divisor then n else Remainder(n - divisor, divisor)
  }

  function WindowStart(now: nat, windowSecs: nat): nat
    requires windowSecs >= 1
  {
    now - Remainder(now, windowSecs)
  }

  /** The start of some window. */
  predicate IsWindow(window: nat, windowSecs: nat)
    requires windowSecs >= 1
  {
    WindowStart(window, windowSecs) == window
  }

  lemma {:induction false} Quotient(n: nat, divisor: nat) returns (q: nat)
    requires divisor >= 1
    ensures n == divisor * q + Remainder(n, divisor)
  {
    q := 0;
    if n >= divisor {
      var p := Quotient(n - divisor, divisor);
      q := p + 1;
      assert divisor * q == divisor * p + divisor;
    }
  }

  lemma QuotientNotLarger(divisor: nat, p: nat, r: nat, q: nat, s: nat)
    requires divisor * p + r == divisor * q + s && s < divisor
    ensures p <= q
  {
    assert divisor * (q + 1) == divisor * q + divisor;
    if q < p {
      MulMonotone(divisor, q + 1, p);
    }
  }

  lemma RemainderIs(n: nat, divisor: nat)
    requires divisor >= 1
    ensures Remainder(n, divisor) == n % divisor
  {
    var q := Quotient(n, divisor);
    QuotientNotLarger(divisor, q, Remainder(n, divisor), n / divisor, n % divisor);
    QuotientNotLarger(divisor, n / divisor, n % divisor, q, Remainder(n, divisor));
  }

  /** The windows of the code: they start at the multiples of their width. */
  lemma WindowsAre(now: nat, windowSecs: nat)
    requires windowSecs >= 1
    ensures WindowStart(now, windowSecs) == now - now % windowSecs
    ensures IsWindow(now, windowSecs) <==> now % windowSecs == 0
  {
    RemainderIs(now, windowSecs);
  }

  datatype Counter = Counter(windowStart: nat, count: nat)

  type Table = map<string, Counter>

  datatype Config = Config(windowSecs: nat, maxRequests: nat, maxSources: nat) {
    /** `new` raises the width to at least one second; both limits are machine words. */
    predicate Ok() {
      windowSecs >= 1 && maxRequests <= USIZE_MAX && maxSources < USIZE_MAX
    }
  }

  // ---- One request ---------------------------------------------------------------------------

  function Retained(t: Table, window: nat, windowSecs: nat): Table {
    map k | k in t && t[k].windowStart >= SaturatingSub(window, windowSecs) :: t[k]
  }

  function CurrentOnly(t: Table, window: nat): Table {
    map k | k in t && t[k].windowStart == window :: t[k]
  }

  /** How many counters belong to sources, not counting the shared one. */
  function Tracked(t: Table): nat {
    SaturatingSub(|t|, if OVERFLOW_SOURCE in t then 1 else 0)
  }

  function BucketOf(cfg: Config, t: Table, source: string): string {
    if source in t then source
    else if Tracked(t) >= cfg.maxSources then OVERFLOW_SOURCE
    else source
  }

  function Charged(t: Table, bucket: string, window: nat): Counter {
    Counter(window, SaturatingIncrement(if bucket in t && t[bucket].windowStart == window then t[bucket].count else 0))
  }

  /** The table after a request, and whether the request is allowed. */
  function Allow(cfg: Config, t: Table, now: nat, sourceKey: string): (Table, bool)
    requires cfg.Ok()
  {
    if cfg.maxRequests == 0 then (t, true)
    else
      var window := WindowStart(now, cfg.windowSecs);
      var kept := Retained(t, window, cfg.windowSecs);
      var bucket := BucketOf(cfg, kept, NormalizeSource(sourceKey));
      var entry := Charged(kept, bucket, window);
      (kept[bucket := entry], entry.count <= cfg.maxRequests)
  }

  lemma SubsetSize<T>(small: set<T>, big: set<T>)
    requires small <= big
    ensures |small| <= |big|
  {
    assert big == small + (big - small);
  }

  lemma RetainedTracked(t: Table, window: nat, windowSecs: nat)
    ensures Tracked(Retained(t, window, windowSecs)) <= Tracked(t)
  {
    var kept := Retained(t, window, windowSecs);
    SubsetSize(kept.Keys - {OVERFLOW_SOURCE}, t.Keys - {OVERFLOW_SOURCE});
    assert OVERFLOW_SOURCE !in t ==> t.Keys - {OVERFLOW_SOURCE} == t.Keys;
    assert OVERFLOW_SOURCE !in kept ==> kept.Keys - {OVERFLOW_SOURCE} == kept.Keys;
  }

  lemma InsertTracked(t: Table, bucket: string, c: Counter)
    ensures Tracked(t[bucket := c]) == if bucket in t || bucket == OVERFLOW_SOURCE then Tracked(t) else Tracked(t) + 1
  {
    var t' := t[bucket := c];
    assert t'.Keys == t.Keys + {bucket};
    if OVERFLOW_SOURCE in t {
      assert |t| >= 1 by { SubsetSize({OVERFLOW_SOURCE}, t.Keys); }
    }
  }

  /** No request takes the table past `max_sources` sources plus the shared counter. */
  lemma AllowKeepsTableBounded(cfg: Config, t: Table, now: nat, sourceKey: string)
    requires cfg.Ok() && Tracked(t) <= cfg.maxSources
    ensures var t' := Allow(cfg, t, now, sourceKey).0; Tracked(t') <= cfg.maxSources && |t'| <= cfg.maxSources + 1
    ensures |Retained(t, WindowStart(now, cfg.windowSecs), cfg.windowSecs)| <= cfg.maxSources + 1
  {
    var window := WindowStart(now, cfg.windowSecs);
    RetainedTracked(t, window, cfg.windowSecs);
    var kept := Retained(t, window, cfg.windowSecs);
    var bucket := BucketOf(cfg, kept, NormalizeSource(sourceKey));
    InsertTracked(kept, bucket, Charged(kept, bucket, window));
  }

  /** What expires: the counters of windows before the last one. */
  lemma RetainedIs(t: Table, window: nat, windowSecs: nat)
    ensures forall k :: k in Retained(t, window, windowSecs) <==> k in t && t[k].windowStart + windowSecs >= window
    ensures forall k :: k in Retained(t, window, windowSecs) ==> Retained(t, window, windowSecs)[k] == t[k]
    ensures |Retained(t, window, windowSecs)| <= |t|
  {
    SubsetSize(Retained(t, window, windowSecs).Keys, t.Keys);
    assert |Retained(t, window, windowSecs)| == |Retained(t, window, windowSecs).Keys| && |t| == |t.Keys|;
  }

  /** Which counter is charged: the source's own if it is still there or if there is room for one more besides the shared
      counter, and the shared counter otherwise. */
  lemma BucketIs(cfg: Config, kept: Table, source: string)
    ensures BucketOf(cfg, kept, source)
         == if source in kept || |kept.Keys - {"__overflow__"}| < cfg.maxSources then source else "__overflow__"
  {
    TrackedIs(kept);
  }

  /** A request drops what has expired, adds one to the count of one counter, which starts at zero in a new window, and is
      allowed while that count is within the limit. */
  lemma AllowIs(cfg: Config, t: Table, now: nat, sourceKey: string)
    requires cfg.Ok() && cfg.maxRequests > 0
    ensures var (t', allowed) := Allow(cfg, t, now, sourceKey);
            var window := WindowStart(now, cfg.windowSecs);
            var kept := Retained(t, window, cfg.windowSecs);
            var bucket := BucketOf(cfg, kept, NormalizeSource(sourceKey));
            var before := if bucket in kept && kept[bucket].windowStart == window then kept[bucket].count else 0;
            && t'.Keys == kept.Keys + {bucket} && (forall k :: k in kept && k != bucket ==> t'[k] == kept[k])
            && t'[bucket].windowStart == window && t'[bucket].count == Min(before + 1, Max(before, USIZE_MAX))
            && (allowed <==> t'[bucket].count <= cfg.maxRequests)
  {
  }

  lemma TrackedIs(t: Table)
    ensures Tracked(t) == |t.Keys - {"__overflow__"}|
  {
    assert |t| == |t.Keys|;
    if OVERFLOW_SOURCE in t {
      assert t.Keys == (t.Keys - {"__overflow__"}) + {"__overflow__"};
    } else {
      assert t.Keys == t.Keys - {"__overflow__"};
    }
  }

  /** Drops expired counters, and shrinks a table that is too large even then. Which counters the last
      resort removes does not matter here; the source takes the first keys in sorted order. */
  method CompactSourceWindows(t: Table, window: nat, windowSecs: nat, maxSources: nat) returns (r: Table)
    requires maxSources < USIZE_MAX
    ensures |Retained(t, window, windowSecs)| <= maxSources + 1 ==> r == Retained(t, window, windowSecs)
    ensures |r| <= maxSources + 1
    ensures forall k :: k in r ==> k in Retained(t, window, windowSecs) && r[k] == t[k]
    ensures forall k :: k in r ==> k in t && t[k].windowStart + windowSecs >= window
    ensures |t| <= maxSources + 1 ==> forall k :: k in t && t[k].windowStart + windowSecs >= window ==> k in r
  {
    RetainedIs(t, window, windowSecs);
    if t == map[] {
      assert Retained(t, window, windowSecs) == map[];
      return t;
    }
    r := Retained(t, window, windowSecs);
    var hardCap := maxSources + 1;
    if |r| <= hardCap {
      return;
    }
    r := CurrentOnly(r, window);
    while |r| > hardCap
      invariant forall k :: k in r ==> k in Retained(t, window, windowSecs) && r[k] == t[k]
    {
      var key :| key in r;
      assert (r - {key}).Keys == r.Keys - {key};
      r := r - {key};
    }
  }

  class FixedWindowRateLimiter {
    const cfg: Config
    var bySource: Table

    ghost predicate Valid()
      reads this
    {
      cfg.Ok() && Tracked(bySource) <= cfg.maxSources
    }

    constructor (windowSecs: nat, maxRequests: nat)
      requires maxRequests <= USIZE_MAX
      ensures Valid() && bySource == map[]
      ensures cfg == Config(if windowSecs < 1 then 1 else windowSecs, maxRequests, 4096)
    {
      cfg := Config(if windowSecs < 1 then 1 else windowSecs, maxRequests, 4096);
      bySource := map[];
    }

    /** The last resort of the compaction never runs: the table only loses expired counters. */
    method AllowAtForSource(now: nat, sourceKey: string) returns (allowed: bool)
      requires Valid()
      modifies this`bySource
      ensures Valid()
      ensures (bySource, allowed) == Allow(cfg, old(bySource), now, sourceKey)
    {
      if cfg.maxRequests == 0 {
        return true;
      }
      AllowKeepsTableBounded(cfg, bySource, now, sourceKey);
      var source := NormalizeSource(sourceKey);
      var window := WindowStart(now, cfg.windowSecs);
      bySource := CompactSourceWindows(bySource, window, cfg.windowSecs, cfg.maxSources);
      var hasOverflow := OVERFLOW_SOURCE in bySource;
      var tracked := SaturatingSub(|bySource|, if hasOverflow then 1 else 0);
      var effective := if source in bySource then source
                       else if tracked >= cfg.maxSources then OVERFLOW_SOURCE else source;
      var entry := if effective in bySource then bySource[effective] else Counter(window, 0);
      if entry.windowStart != window {
        entry := Counter(window, 0);
      }
      entry := entry.(count := SaturatingIncrement(entry.count));
      bySource := bySource[effective := entry];
      allowed := entry.count <= cfg.maxRequests;
    }
  }
}

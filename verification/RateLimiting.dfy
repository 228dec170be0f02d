/** The sliding-window limiter of packages/gateway/src/rate-limiter.js over whole runs. Times are milliseconds. */
module RateLimiting {
  import opened Collections

  datatype Limits = Limits(windowMs: int, maxRequests: int, burstLimit: int, maxConcurrent: int)

  /** `options.x || fallback` for a numeric option that may be missing. */
  function OrElse(option: Option<int>, fallback: int): int {
    if option.None? || option.value == 0 then fallback else option.value
  }

  function Configure(windowMs: Option<int>, maxRequests: Option<int>, burst: Option<int>, concurrent: Option<int>): Limits {
    Limits(OrElse(windowMs, 60000), OrElse(maxRequests, 60), OrElse(burst, 10), OrElse(concurrent, 2))
  }

  /** `timestamps.filter(ts => now - ts < span)` */
  function Recent(times: seq<int>, now: int, span: int): seq<int> {
    if times == [] then []
    else (if now - times[0] < span then [times[0]] else []) + Recent(times[1..], now, span)
  }

  /** The `resetMs` of a window denial is `None` for the NaN computed from an empty list. */
  datatype Decision =
    | Admitted(remaining: int, resetMs: int)
    | BurstDenied
    | WindowDenied(reset: Option<int>)

  const BURST_SPAN := 1000

  /** The decision on a call at `now`, and the timestamps then kept for its key. */
  function Check(limits: Limits, stored: seq<int>, now: int): (Decision, seq<int>) {
    var times := Recent(stored, now, limits.windowMs);
    if |Recent(times, now, BURST_SPAN)| >= limits.burstLimit then (BurstDenied, times)
    else if |times| >= limits.maxRequests then
      (WindowDenied(if times == [] then None else Some(Max(0, limits.windowMs - (now - times[0])))), times)
    else (Admitted(limits.maxRequests - (|times| + 1), limits.windowMs), times + [now])
  }

  function KeyOf(principalId: string, action: string): string {
    principalId + ":" + action
  }

  function Stored(m: map<string, seq<int>>, key: string): seq<int> {
    if key in m then m[key] else []
  }

  function Active(m: map<string, int>, principalId: string): int {
    if principalId in m then m[principalId] else 0
  }

  function Acquired(limits: Limits, m: map<string, int>, principalId: string): map<string, int> {
    var current := Active(m, principalId);
    if current >= limits.maxConcurrent then m else m[principalId := current + 1]
  }

  function Released(m: map<string, int>, principalId: string): map<string, int> {
    var current := Active(m, principalId);
    if current <= 1 then m - {principalId} else m[principalId := current - 1]
  }

  class RateLimiter {
    const limits: Limits
    var requestTimestamps: map<string, seq<int>>
    var activeJobs: map<string, int>

    constructor (windowMs: Option<int>, maxRequests: Option<int>, burst: Option<int>, concurrent: Option<int>)
      ensures limits.windowMs == if windowMs.Some? && windowMs.value != 0 then windowMs.value else 60000
      ensures limits.maxRequests == if maxRequests.Some? && maxRequests.value != 0 then maxRequests.value else 60
      ensures limits.burstLimit == if burst.Some? && burst.value != 0 then burst.value else 10
      ensures limits.maxConcurrent == if concurrent.Some? && concurrent.value != 0 then concurrent.value else 2
      ensures requestTimestamps == map[] && activeJobs == map[]
    {
      limits := Configure(windowMs, maxRequests, burst, concurrent);
      requestTimestamps, activeJobs := map[], map[];
    }

    method CheckLimit(principalId: string, action: string, now: int) returns (d: Decision)
      modifies this`requestTimestamps
      ensures var key := KeyOf(principalId, action); var r := Check(limits, Stored(old(requestTimestamps), key), now);
        d == r.0 && requestTimestamps == old(requestTimestamps)[key := r.1]
    {
      var key := KeyOf(principalId, action);
      var timestamps := Recent(Stored(requestTimestamps, key), now, limits.windowMs);
      requestTimestamps := requestTimestamps[key := timestamps];
      var recentBurst := |Recent(timestamps, now, BURST_SPAN)|;
      if recentBurst >= limits.burstLimit {
        return BurstDenied;
      }
      if |timestamps| >= limits.maxRequests {
        return WindowDenied(if timestamps == [] then None else Some(Max(0, limits.windowMs - (now - timestamps[0]))));
      }
      timestamps := timestamps + [now];
      requestTimestamps := requestTimestamps[key := timestamps];
      return Admitted(limits.maxRequests - |timestamps|, limits.windowMs);
    }

    method AcquireConcurrency(principalId: string) returns (acquired: bool, activeCount: int)
      modifies this`activeJobs
      ensures activeJobs == Acquired(limits, old(activeJobs), principalId)
      ensures acquired <==> Active(old(activeJobs), principalId) < limits.maxConcurrent
      ensures activeCount == Active(activeJobs, principalId)
    {
      var current := Active(activeJobs, principalId);
      if current >= limits.maxConcurrent { return false, current; }
      activeJobs := activeJobs[principalId := current + 1];
      return true, current + 1;
    }

    method ReleaseConcurrency(principalId: string)
      modifies this`activeJobs
      ensures activeJobs == Released(old(activeJobs), principalId)
    {
      var current := Active(activeJobs, principalId);
      if current <= 1 {
        activeJobs := activeJobs - {principalId};
      } else {
        activeJobs := activeJobs[principalId := current - 1];
      }
    }
  }

  // ---------------------------------------------------------------- whole runs

  datatype Call = Call(principalId: string, action: string, now: int)

  /** The limiter's timestamps, and all times at which calls were admitted, by key. */
  datatype Log = Log(stored: map<string, seq<int>>, admitted: map<string, seq<int>>)

  function Step(limits: Limits, log: Log, call: Call): Log {
    var key := KeyOf(call.principalId, call.action);
    var (decision, times) := Check(limits, Stored(log.stored, key), call.now);
    Log(log.stored[key := times],
        if decision.Admitted? then log.admitted[key := Stored(log.admitted, key) + [call.now]] else log.admitted)
  }

  function Run(limits: Limits, calls: seq<Call>): Log {
    if calls == [] then Log(map[], map[])
    else Step(limits, Run(limits, calls[..|calls| - 1]), calls[|calls| - 1])
  }

  /** The clock does not go back. */
  ghost predicate InOrder(calls: seq<Call>) {
    forall i, j :: 0 <= i < j < |calls| ==> calls[i].now <= calls[j].now
  }

  ghost predicate Sorted(times: seq<int>) {
    forall i, j :: 0 <= i < j < |times| ==> times[i] <= times[j]
  }

  /** Two times that are `count` or more places apart lie at least `span` apart. */
  ghost predicate Spaced(times: seq<int>, count: int, span: int) {
    && (count <= 0 ==> times == [])
    && forall i, j :: 0 <= i < j < |times| && j - i >= count ==> times[j] - times[i] >= span
  }

  function BurstSpan(limits: Limits): int {
    if limits.windowMs < BURST_SPAN then limits.windowMs else BURST_SPAN
  }

  /** What is kept for a key at time `last`: the admitted times but for some that have left the window. */
  ghost predicate KeyInv(limits: Limits, stored: seq<int>, admitted: seq<int>, last: int) {
    var n := |admitted| - |stored|;
    && Sorted(admitted) && (forall i :: 0 <= i < |admitted| ==> admitted[i] <= last)
    && n >= 0 && stored == admitted[n..] && (forall i :: 0 <= i < n ==> last - admitted[i] >= limits.windowMs)
    && |stored| <= Max(0, limits.maxRequests)
    && Spaced(admitted, limits.maxRequests, limits.windowMs)
    && Spaced(admitted, limits.burstLimit, BurstSpan(limits))
  }

  /** How many times at the head of the list have left the span. */
  function Stale(times: seq<int>, now: int, span: int): (k: nat)
    ensures k <= |times|
    ensures forall i :: 0 <= i < k ==> now - times[i] >= span
    ensures k < |times| ==> now - times[k] < span
  {
    if times == [] || now - times[0] < span then 0
    else
      assert forall i :: 1 <= i < |times| ==> times[i] == times[1..][i - 1];
      1 + Stale(times[1..], now, span)
  }

  lemma {:induction false} RecentAll(times: seq<int>, now: int, span: int)
    requires forall i :: 0 <= i < |times| ==> now - times[i] < span
    ensures Recent(times, now, span) == times
  {
    if times != [] { RecentAll(times[1..], now, span); }
  }

  lemma {:induction false} RecentNone(times: seq<int>, now: int, span: int)
    requires forall i :: 0 <= i < |times| ==> now - times[i] >= span
    ensures Recent(times, now, span) == []
  {
    if times != [] { RecentNone(times[1..], now, span); }
  }

  lemma {:induction false} RecentSplit(a: seq<int>, b: seq<int>, now: int, span: int)
    ensures Recent(a + b, now, span) == Recent(a, now, span) + Recent(b, now, span)
  {
    if a == [] {
      assert a + b == b;
    } else {
      assert (a + b)[1..] == a[1..] + b;
      RecentSplit(a[1..], b, now, span);
    }
  }

  /** Of a sorted list the recent times are a suffix. */
  lemma RecentIsSuffix(times: seq<int>, now: int, span: int)
    requires Sorted(times)
    ensures Recent(times, now, span) == times[Stale(times, now, span)..]
  {
    var k := Stale(times, now, span);
    var gone, left := times[..k], times[k..];
    forall i | 0 <= i < |left| ensures now - left[i] < span {
      assert left[i] == times[k + i] && times[k] <= times[k + i];
    }
    hide Recent, Sorted, Stale;
    RecentNone(gone, now, span);
    RecentAll(left, now, span);
    RecentSplit(gone, left, now, span);
    assert times == gone + left;
  }

  /** The kept times are the last of the admitted ones, and the others have left the span. */
  ghost predicate Keeps(admitted: seq<int>, kept: seq<int>, now: int, span: int) {
    var n := |admitted| - |kept|;
    n >= 0 && kept == admitted[n..] && forall i :: 0 <= i < n ==> now - admitted[i] >= span
  }

  lemma FilterKeeps(admitted: seq<int>, kept: seq<int>, now: int, span: int, wide: int)
    requires Sorted(admitted) && Keeps(admitted, kept, now, wide) && span <= wide
    ensures Keeps(admitted, Recent(kept, now, span), now, span)
  {
    var n, k := |admitted| - |kept|, Stale(kept, now, span);
    assert Sorted(kept);
    RecentIsSuffix(kept, now, span);
    hide Recent, Sorted;
    assert kept[k..] == admitted[n + k..];
    forall i | 0 <= i < n + k ensures now - admitted[i] >= span {
      if i >= n { assert admitted[i] == kept[i - n]; }
    }
  }

  lemma WindowKeeps(limits: Limits, stored: seq<int>, admitted: seq<int>, last: int, now: int)
    requires KeyInv(limits, stored, admitted, last) && last <= now
    ensures Keeps(admitted, Recent(stored, now, limits.windowMs), now, limits.windowMs)
    ensures |Recent(stored, now, limits.windowMs)| <= |stored|
  {
    assert Keeps(admitted, stored, now, limits.windowMs);
    FilterKeeps(admitted, stored, now, limits.windowMs, limits.windowMs);
    assert Sorted(stored);
    RecentIsSuffix(stored, now, limits.windowMs);
    hide Recent, Keeps, Sorted;
  }

  lemma BurstKeeps(limits: Limits, stored: seq<int>, admitted: seq<int>, now: int)
    requires var times := Recent(stored, now, limits.windowMs); Sorted(admitted) && Keeps(admitted, times, now, limits.windowMs)
    ensures Keeps(admitted, Recent(Recent(stored, now, limits.windowMs), now, BURST_SPAN), now, BurstSpan(limits))
  {
    var times := Recent(stored, now, limits.windowMs);
    if limits.windowMs >= BURST_SPAN {
      FilterKeeps(admitted, times, now, BURST_SPAN, limits.windowMs);
    } else {
      forall i | 0 <= i < |times| ensures now - times[i] < BURST_SPAN { TimesAreRecent(stored, now, limits.windowMs, i); }
      RecentAll(times, now, BURST_SPAN);
      hide Recent;
    }
  }

  lemma {:induction false} TimesAreRecent(stored: seq<int>, now: int, span: int, i: nat)
    requires i < |Recent(stored, now, span)|
    ensures now - Recent(stored, now, span)[i] < span
  {
    var head := if now - stored[0] < span then 1 else 0;
    if i >= head { TimesAreRecent(stored[1..], now, span, i - head); }
  }

  /** Dropping the times that have left the window. */
  lemma FilterKeepsKey(limits: Limits, stored: seq<int>, admitted: seq<int>, last: int, now: int)
    requires KeyInv(limits, stored, admitted, last) && last <= now
    ensures KeyInv(limits, Recent(stored, now, limits.windowMs), admitted, now)
  {
    WindowKeeps(limits, stored, admitted, last, now);
    hide Recent, Spaced, Sorted;
  }

  lemma SortedSnoc(times: seq<int>, now: int)
    requires Sorted(times) && forall i :: 0 <= i < |times| ==> times[i] <= now
    ensures Sorted(times + [now])
  {}

  lemma AdmitKeepsKey(limits: Limits, times: seq<int>, burst: seq<int>, admitted: seq<int>, now: int)
    requires KeyInv(limits, times, admitted, now) && Keeps(admitted, burst, now, BurstSpan(limits))
    requires |burst| < limits.burstLimit && |times| < limits.maxRequests
    ensures KeyInv(limits, times + [now], admitted + [now], now)
  {
    SortedSnoc(admitted, now);
    assert Keeps(admitted, times, now, limits.windowMs);
    AdmitKeepsSpacing(admitted, times, now, limits.maxRequests, limits.windowMs);
    AdmitKeepsSpacing(admitted, burst, now, limits.burstLimit, BurstSpan(limits));
    hide Spaced, Sorted, Keeps;
    assert times + [now] == (admitted + [now])[|admitted| - |times|..];
  }

  lemma CheckKeepsKey(limits: Limits, stored: seq<int>, admitted: seq<int>, last: int, now: int)
    requires KeyInv(limits, stored, admitted, last) && last <= now
    ensures var (d, times) := Check(limits, stored, now);
      KeyInv(limits, times, if d.Admitted? then admitted + [now] else admitted, now)
  {
    assert Sorted(admitted);
    WindowKeeps(limits, stored, admitted, last, now);
    BurstKeeps(limits, stored, admitted, now);
    FilterKeepsKey(limits, stored, admitted, last, now);
    hide Recent, KeyInv, Keeps, Sorted;
    var times := Recent(stored, now, limits.windowMs);
    if Check(limits, stored, now).0.Admitted? {
      AdmitKeepsKey(limits, times, Recent(times, now, BURST_SPAN), admitted, now);
    }
  }

  /** Admitting a call when fewer than `count` calls are kept. */
  lemma AdmitKeepsSpacing(admitted: seq<int>, kept: seq<int>, now: int, count: int, span: int)
    requires Spaced(admitted, count, span) && Keeps(admitted, kept, now, span) && |kept| < count
    ensures Spaced(admitted + [now], count, span)
  {}

  ghost predicate LogInv(limits: Limits, log: Log, last: int) {
    forall key :: KeyInv(limits, Stored(log.stored, key), Stored(log.admitted, key), last)
  }

  lemma LaterKey(limits: Limits, stored: seq<int>, admitted: seq<int>, last: int, now: int)
    requires KeyInv(limits, stored, admitted, last) && last <= now
    ensures KeyInv(limits, stored, admitted, now)
  {}

  /** A step concerns the key of its call only. */
  lemma StepOfLog(limits: Limits, log: Log, call: Call, k: string)
    ensures var log' := Step(limits, log, call); var key := KeyOf(call.principalId, call.action);
      var (decision, times) := Check(limits, Stored(log.stored, key), call.now);
      if k == key then
        && Stored(log'.stored, k) == times
        && Stored(log'.admitted, k) == if decision.Admitted? then Stored(log.admitted, k) + [call.now] else Stored(log.admitted, k)
      else Stored(log'.stored, k) == Stored(log.stored, k) && Stored(log'.admitted, k) == Stored(log.admitted, k)
  {
    hide Check, KeyOf;
  }

  lemma StepKeepsLog(limits: Limits, log: Log, call: Call, last: int)
    requires LogInv(limits, log, last) && last <= call.now
    ensures LogInv(limits, Step(limits, log, call), call.now)
  {
    var log' := Step(limits, log, call);
    var key := KeyOf(call.principalId, call.action);
    hide KeyInv, Check, Step, Stored, KeyOf;
    forall k ensures KeyInv(limits, Stored(log'.stored, k), Stored(log'.admitted, k), call.now) {
      assert KeyInv(limits, Stored(log.stored, k), Stored(log.admitted, k), last);
      StepOfLog(limits, log, call, k);
      if k == key {
        CheckKeepsKey(limits, Stored(log.stored, k), Stored(log.admitted, k), last, call.now);
      } else {
        LaterKey(limits, Stored(log.stored, k), Stored(log.admitted, k), last, call.now);
      }
    }
  }

  lemma LaterLog(limits: Limits, log: Log, last: int, now: int)
    requires LogInv(limits, log, last) && last <= now
    ensures LogInv(limits, log, now)
  {
    hide KeyInv;
    forall k ensures KeyInv(limits, Stored(log.stored, k), Stored(log.admitted, k), now) {
      LaterKey(limits, Stored(log.stored, k), Stored(log.admitted, k), last, now);
    }
  }

  lemma {:induction false} RunKeepsLog(limits: Limits, calls: seq<Call>, last: int)
    requires InOrder(calls) && forall i :: 0 <= i < |calls| ==> calls[i].now <= last
    ensures LogInv(limits, Run(limits, calls), last)
    decreases |calls|
  {
    hide KeyInv, Step, Check;
    if calls == [] {
      EmptyKey(limits, last);
    } else {
      var before, call := calls[..|calls| - 1], calls[|calls| - 1];
      assert forall i :: 0 <= i < |before| ==> before[i] == calls[i];
      RunKeepsLog(limits, before, call.now);
      hide LogInv;
      StepKeepsLog(limits, Run(limits, before), call, call.now);
      LaterLog(limits, Run(limits, calls), call.now, last);
    }
  }

  lemma EmptyKey(limits: Limits, last: int)
    ensures KeyInv(limits, [], [], last)
  {}

  // ---------------------------------------------------------------- counting

  /** How many of the times lie in the half-open span from `from` to `to`. */
  function Count(times: seq<int>, from: int, to: int): (n: nat)
    ensures n <= |times|
  {
    if times == [] then 0 else (if from <= times[0] < to then 1 else 0) + Count(times[1..], from, to)
  }

  lemma {:induction false} CountSplit(a: seq<int>, b: seq<int>, from: int, to: int)
    ensures Count(a + b, from, to) == Count(a, from, to) + Count(b, from, to)
  {
    if a == [] {
      assert a + b == b;
    } else {
      assert (a + b)[1..] == a[1..] + b;
      CountSplit(a[1..], b, from, to);
    }
  }

  lemma {:induction false} CountNone(times: seq<int>, from: int, to: int)
    requires forall i :: 0 <= i < |times| ==> !(from <= times[i] < to)
    ensures Count(times, from, to) == 0
  {
    if times != [] { CountNone(times[1..], from, to); }
  }

  /** If the last time is before the end of the span, only the last `count` can be in it. */
  lemma OnlyTheLast(times: seq<int>, count: nat, span: int, from: int)
    requires Spaced(times, count, span) && 0 < count < |times| && times[|times| - 1] < from + span
    ensures Count(times, from, from + span) <= count
  {
    var n := |times|;
    var early, late := times[..n - count], times[n - count..];
    forall i | 0 <= i < |early| ensures !(from <= early[i] < from + span) {
      assert early[i] == times[i] && times[n - 1] - times[i] >= span;
    }
    hide Spaced, Count;
    CountNone(early, from, from + span);
    CountSplit(early, late, from, from + span);
    assert times == early + late;
  }

  /** Spaced times are at most `count` in any span. */
  lemma {:induction false} SpacedIsFew(times: seq<int>, count: int, span: int, from: int)
    requires Spaced(times, count, span)
    ensures Count(times, from, from + span) <= Max(0, count)
    decreases |times|
  {
    if |times| > Max(0, count) {
      var shorter, last := times[..|times| - 1], times[|times| - 1];
      if last < from + span {
        OnlyTheLast(times, count, span, from);
      } else {
        assert Spaced(shorter, count, span);
        SpacedIsFew(shorter, count, span, from);
        CountSplit(shorter, [last], from, from + span);
        CountNone([last], from, from + span);
        hide Count, Spaced;
        assert times == shorter + [last];
      }
    }
  }

  lemma AdmittedAreSpaced(limits: Limits, calls: seq<Call>, key: string)
    requires InOrder(calls)
    ensures var times := Stored(Run(limits, calls).admitted, key);
      Spaced(times, limits.maxRequests, limits.windowMs) && Spaced(times, limits.burstLimit, BurstSpan(limits))
  {
    hide Run, Spaced, Sorted, BurstSpan;
    var last := if calls == [] then 0 else calls[|calls| - 1].now;
    RunKeepsLog(limits, calls, last);
    var log := Run(limits, calls);
    assert KeyInv(limits, Stored(log.stored, key), Stored(log.admitted, key), last);
  }

  /** Window safety: in every run with a clock that does not go back, every half-open span of `windowMs` has at
      most `maxRequests` admitted calls per key, and every span of 1000 ms, or of the window if that is
      shorter, at most `burstLimit`. */
  lemma EverySpanIsWithinLimits(limits: Limits, calls: seq<Call>, key: string, from: int)
    requires InOrder(calls)
    ensures var times := Stored(Run(limits, calls).admitted, key);
      && Count(times, from, from + limits.windowMs) <= Max(0, limits.maxRequests)
      && Count(times, from, from + BurstSpan(limits)) <= Max(0, limits.burstLimit)
  {
    hide Run, Spaced, BurstSpan, Count;
    AdmittedAreSpaced(limits, calls, key);
    var times := Stored(Run(limits, calls).admitted, key);
    SpacedIsFew(times, limits.maxRequests, limits.windowMs, from);
    SpacedIsFew(times, limits.burstLimit, BurstSpan(limits), from);
  }

  // ---------------------------------------------------------------- the burst limit of one second

  /** The admitted calls for a key within the second that starts at `from`. */
  function InOneSecond(limits: Limits, calls: seq<Call>, key: string, from: int): nat {
    Count(Stored(Run(limits, calls).admitted, key), from, from + BURST_SPAN)
  }

  ghost predicate BurstHolds(limits: Limits) {
    forall calls, key, from :: InOrder(calls) ==> InOneSecond(limits, calls, key, from) <= Max(0, limits.burstLimit)
  }

  /** The smaller limit is the one that counts within a window of at most a second. */
  function Least(limits: Limits): int {
    if limits.burstLimit < limits.maxRequests then limits.burstLimit else limits.maxRequests
  }

  /** How many windows it takes to fill a second. */
  function Windows(limits: Limits): (k: nat)
    requires limits.windowMs > 0
    ensures k >= 1 && (k - 1) * limits.windowMs < BURST_SPAN <= k * limits.windowMs
    ensures k == 1 <==> limits.windowMs >= BURST_SPAN
  {
    (BURST_SPAN + limits.windowMs - 1) / limits.windowMs
  }

  lemma SpacedFurther(times: seq<int>, m: int, w: int, n: int, v: int)
    requires Spaced(times, m, w) && Spaced(times, n, v) && m >= 1 && n >= 1
    ensures Spaced(times, m + n, w + v)
  {
    forall i, j | 0 <= i < j < |times| && j - i >= m + n ensures times[j] - times[i] >= w + v {
      var mid := i + m;
      assert times[mid] - times[i] >= w && times[j] - times[mid] >= v;
    }
  }

  /** Spacing adds up: `k` times as many places apart, `k` times as far apart. */
  lemma {:induction false} SpacedApart(times: seq<int>, m: nat, w: int, k: nat)
    requires Spaced(times, m, w) && m >= 1 && k >= 1
    ensures m * k >= 1 && Spaced(times, m * k, w * k)
    decreases k
  {
    hide Spaced;
    if k > 1 {
      SpacedApart(times, m, w, k - 1);
      SpacedFurther(times, m * (k - 1), w * (k - 1), m, w);
      assert m * k == m * (k - 1) + m && w * k == w * (k - 1) + w;
    }
  }

  lemma {:induction false} LongerSpan(times: seq<int>, from: int, to: int, later: int)
    requires to <= later
    ensures Count(times, from, to) <= Count(times, from, later)
  {
    if times != [] { LongerSpan(times[1..], from, to, later); }
  }

  lemma LongEnoughWindows(limits: Limits, calls: seq<Call>, key: string, from: int)
    requires InOrder(calls) && 0 < limits.windowMs < BURST_SPAN && Least(limits) >= 1
    ensures InOneSecond(limits, calls, key, from) <= Least(limits) * Windows(limits)
  {
    var m, w, k := Least(limits), limits.windowMs, Windows(limits);
    AdmittedAreSpaced(limits, calls, key);
    var times := Stored(Run(limits, calls).admitted, key);
    hide Run, Count;
    assert Spaced(times, m, w);
    hide Spaced;
    SpacedApart(times, m, w, k);
    SpacedIsFew(times, m * k, w * k, from);
    assert w * k == k * w && m * k >= 0;
    LongerSpan(times, from, from + BURST_SPAN, from + w * k);
  }

  /** What is stored after `n` calls at `now`, earlier ones having left the window. */
  ghost predicate OnlyNow(limits: Limits, stored: seq<int>, n: nat, now: int) {
    if limits.windowMs > 0 && n > 0 then stored == Times(now, n) else forall i :: 0 <= i < |stored| ==> now - stored[i] >= limits.windowMs
  }

  lemma AdmitNow(limits: Limits, stored: seq<int>, n: nat, now: int)
    requires OnlyNow(limits, stored, n, now) && Least(limits) >= 1 && (limits.windowMs > 0 ==> n < Least(limits))
    ensures var (d, times) := Check(limits, stored, now); d.Admitted? && OnlyNow(limits, times, n + 1, now)
  {
    if limits.windowMs > 0 && n > 0 {
      RecentAll(stored, now, limits.windowMs);
      RecentAll(stored, now, BURST_SPAN);
      assert Times(now, n) + [now] == Times(now, n + 1);
    } else {
      RecentNone(stored, now, limits.windowMs);
      assert Recent([], now, BURST_SPAN) == [];
      assert [now] == Times(now, 1);
    }
    hide Recent;
  }

  lemma StepNow(limits: Limits, log: Log, n: nat, call: Call)
    requires var key := KeyOf(call.principalId, call.action); OnlyNow(limits, Stored(log.stored, key), n, call.now)
    requires Least(limits) >= 1 && (limits.windowMs > 0 ==> n < Least(limits))
    ensures var log' := Step(limits, log, call); var key := KeyOf(call.principalId, call.action);
      && Stored(log'.admitted, key) == Stored(log.admitted, key) + [call.now]
      && OnlyNow(limits, Stored(log'.stored, key), n + 1, call.now)
  {
    AdmitNow(limits, Stored(log.stored, KeyOf(call.principalId, call.action)), n, call.now);
    hide Check, OnlyNow, KeyOf;
  }

  lemma RunLast(limits: Limits, before: seq<Call>, call: Call)
    ensures Run(limits, before + [call]) == Step(limits, Run(limits, before), call)
  {
    assert (before + [call])[..|before|] == before;
    hide Step;
  }

  /** `n` calls at one time, all earlier ones having left the window, are admitted while `n` is within both limits; if
      there is no window, they are admitted however many they are. */
  lemma {:induction false} Burst(limits: Limits, before: seq<Call>, n: nat, call: Call)
    requires var key := KeyOf(call.principalId, call.action); OnlyNow(limits, Stored(Run(limits, before).stored, key), 0, call.now)
    requires Least(limits) >= 1 && (limits.windowMs > 0 ==> n <= Least(limits))
    ensures var log := Run(limits, before + Times(call, n)); var key := KeyOf(call.principalId, call.action);
      && Stored(log.admitted, key) == Stored(Run(limits, before).admitted, key) + Times(call.now, n)
      && OnlyNow(limits, Stored(log.stored, key), n, call.now)
    decreases n
  {
    hide Step, OnlyNow, KeyOf, Least, Run;
    if n == 0 {
      assert before + Times(call, n) == before;
    } else {
      var most := before + Times(call, n - 1);
      assert before + Times(call, n) == most + [call];
      Burst(limits, before, n - 1, call);
      RunLast(limits, most, call);
      StepNow(limits, Run(limits, most), n - 1, call);
      assert Times(call.now, n - 1) + [call.now] == Times(call.now, n);
    }
  }

  lemma {:induction false} CountNow(n: nat, now: int, from: int, to: int)
    requires from <= now < to
    ensures Count(Times(now, n), from, to) == n
    decreases n
  {
    if n > 0 {
      assert Times(now, n)[1..] == Times(now, n - 1);
      CountNow(n - 1, now, from, to);
    }
  }

  /** Without any window every call is admitted. */
  lemma NoWindowBreaksBurst(limits: Limits)
    requires Least(limits) >= 1 && limits.windowMs <= 0
    ensures !BurstHolds(limits)
  {
    var n, call := limits.burstLimit + 1, Call("p", "a", 0);
    var key := KeyOf("p", "a");
    Burst(limits, [], n, call);
    assert [] + Times(call, n) == Times(call, n) && [] + Times(0, n) == Times(0, n);
    CountNow(n, 0, 0, BURST_SPAN);
    assert InOrder(Times(call, n));
    hide Run, Count, KeyOf;
    assert InOneSecond(limits, Times(call, n), key, 0) == n;
  }

  /** The most calls that `k` windows admit, at the beginning of each. */
  function Bursts(m: nat, w: int, k: nat): seq<Call> {
    if k == 0 then [] else Bursts(m, w, k - 1) + Times(Call("p", "a", (k - 1) * w), m)
  }

  lemma {:induction false} BurstsInOrder(m: nat, w: nat, k: nat)
    ensures InOrder(Bursts(m, w, k)) && forall i :: 0 <= i < |Bursts(m, w, k)| ==> Bursts(m, w, k)[i].now <= k * w - w
    decreases k
  {
    if k > 0 {
      BurstsInOrder(m, w, k - 1);
      assert (k - 1) * w == k * w - w;
    }
  }

  /** When the next window begins, the calls of the one before have left. */
  lemma BurstLeaves(limits: Limits, stored: seq<int>, m: nat, now: int, next: int)
    requires limits.windowMs > 0 && m > 0 && OnlyNow(limits, stored, m, now) && next - now >= limits.windowMs
    ensures OnlyNow(limits, stored, 0, next)
  {}

  lemma {:induction false} BurstsAreAdmitted(limits: Limits, k: nat)
    requires limits.windowMs > 0 && Least(limits) >= 1 && k * limits.windowMs < BURST_SPAN + limits.windowMs
    ensures var log := Run(limits, Bursts(Least(limits), limits.windowMs, k));
      && Count(Stored(log.admitted, KeyOf("p", "a")), 0, BURST_SPAN) == Least(limits) * k
      && OnlyNow(limits, Stored(log.stored, KeyOf("p", "a")), 0, k * limits.windowMs)
    decreases k
  {
    var m, w := Least(limits), limits.windowMs;
    if k > 0 {
      var before, call := Bursts(m, w, k - 1), Call("p", "a", (k - 1) * w);
      assert Bursts(m, w, k) == before + Times(call, m);
      hide Run, KeyOf, Least, Bursts;
      assert 0 <= (k - 1) * w == k * w - w && m * k == m * (k - 1) + m;
      BurstsAreAdmitted(limits, k - 1);
      hide Count, OnlyNow;
      Burst(limits, before, m, call);
      BurstLeaves(limits, Stored(Run(limits, before + Times(call, m)).stored, KeyOf("p", "a")), m, call.now, k * w);
      CountSplit(Stored(Run(limits, before).admitted, KeyOf("p", "a")), Times(call.now, m), 0, BURST_SPAN);
      CountNow(m, call.now, 0, BURST_SPAN);
    }
  }

  lemma ShortWindowsBreakBurst(limits: Limits)
    requires limits.windowMs > 0 && Least(limits) >= 1 && Least(limits) * Windows(limits) > limits.burstLimit
    ensures !BurstHolds(limits)
  {
    var m, w, k := Least(limits), limits.windowMs, Windows(limits);
    assert (k - 1) * w == k * w - w;
    BurstsAreAdmitted(limits, k);
    BurstsInOrder(m, w, k);
    hide Run, Count, KeyOf, Bursts, Windows;
    assert InOneSecond(limits, Bursts(m, w, k), KeyOf("p", "a"), 0) == m * k;
  }

  lemma NothingAdmitted(limits: Limits, calls: seq<Call>, key: string, from: int)
    requires InOrder(calls) && Least(limits) <= 0
    ensures InOneSecond(limits, calls, key, from) == 0
  {
    AdmittedAreSpaced(limits, calls, key);
  }

  /** For all limits: every run admits at most `burstLimit` calls per key and second exactly when nothing is ever
      admitted, or as many whole windows as it takes to fill a second do not admit more. With
      `burstLimit <= maxRequests`, as by default, that is a window of at least a second. */
  lemma BurstHoldsIff(limits: Limits)
    ensures BurstHolds(limits) <==>
              Least(limits) <= 0 || (limits.windowMs > 0 && Least(limits) * Windows(limits) <= limits.burstLimit)
    ensures 1 <= limits.burstLimit <= limits.maxRequests ==> (BurstHolds(limits) <==> limits.windowMs >= BURST_SPAN)
  {
    hide InOneSecond, InOrder, BurstSpan;
    if Least(limits) <= 0 {
      forall calls: seq<Call>, key, from | InOrder(calls) ensures InOneSecond(limits, calls, key, from) == 0 {
        NothingAdmitted(limits, calls, key, from);
      }
    } else if limits.windowMs <= 0 {
      NoWindowBreaksBurst(limits);
    } else {
      AtLeastOneWindow(limits);
      if Least(limits) * Windows(limits) > limits.burstLimit {
        ShortWindowsBreakBurst(limits);
      } else {
        forall calls: seq<Call>, key, from | InOrder(calls) ensures InOneSecond(limits, calls, key, from) <= limits.burstLimit {
          FitsInOneSecond(limits, calls, key, from);
        }
      }
    }
  }

  lemma AtLeastOneWindow(limits: Limits)
    requires limits.windowMs > 0 && Least(limits) >= 1
    ensures 1 <= limits.burstLimit <= limits.maxRequests ==>
              (Least(limits) * Windows(limits) <= limits.burstLimit <==> limits.windowMs >= BURST_SPAN)
  {
    var m, k := Least(limits), Windows(limits);
    if k > 1 {
      assert m * k >= m * 2;
    }
  }

  lemma FitsInOneSecond(limits: Limits, calls: seq<Call>, key: string, from: int)
    requires InOrder(calls) && limits.windowMs > 0 && Least(limits) >= 1 && Least(limits) * Windows(limits) <= limits.burstLimit
    ensures InOneSecond(limits, calls, key, from) <= limits.burstLimit
  {
    if limits.windowMs >= BURST_SPAN {
      EverySpanIsWithinLimits(limits, calls, key, from);
    } else {
      LongEnoughWindows(limits, calls, key, from);
    }
    hide Run, Count;
  }

  // ---------------------------------------------------------------- the wait reported by a denial

  /** After a window denial the reported wait is exactly the least one: a call after any shorter wait is denied
      for the same reason, and a call after it is admitted. There is none exactly when no request is ever allowed. */
  lemma ResetIsExact(limits: Limits, calls: seq<Call>, key: string, now: int, wait: nat)
    requires InOrder(calls) && forall i :: 0 <= i < |calls| ==> calls[i].now <= now
    requires Check(limits, Stored(Run(limits, calls).stored, key), now).0.WindowDenied?
    ensures var (denial, kept) := Check(limits, Stored(Run(limits, calls).stored, key), now);
      && (denial.reset.None? <==> limits.maxRequests <= 0)
      && (denial.reset.Some? ==>
            && denial.reset.value > 0
            && (wait < denial.reset.value ==> Check(limits, kept, now + wait).0.WindowDenied?)
            && (wait == denial.reset.value ==> Check(limits, kept, now + wait).0.Admitted?))
  {
    RunKeepsLog(limits, calls, now);
    var log := Run(limits, calls);
    var stored, admitted := Stored(log.stored, key), Stored(log.admitted, key);
    assert KeyInv(limits, stored, admitted, now);
    hide Run, LogInv;
    assert Sorted(stored) && |stored| <= Max(0, limits.maxRequests);
    hide KeyInv;
    if limits.maxRequests > 0 {
      ResetOfKey(limits, stored, now, wait);
    } else {
      assert stored == [] && Recent(stored, now, limits.windowMs) == [];
    }
  }

  lemma ResetOfKey(limits: Limits, stored: seq<int>, now: int, wait: nat)
    requires Sorted(stored) && |stored| <= limits.maxRequests && limits.maxRequests > 0
    requires Check(limits, stored, now).0.WindowDenied?
    ensures var (denial, kept) := Check(limits, stored, now);
      && denial.reset.Some? && denial.reset.value > 0
      && (wait < denial.reset.value ==> Check(limits, kept, now + wait).0.WindowDenied?)
      && (wait == denial.reset.value ==> Check(limits, kept, now + wait).0.Admitted?)
  {
    RecentIsSuffix(stored, now, limits.windowMs);
    RecentIsSuffix(stored, now, BURST_SPAN);
    assert Stale(stored, now, limits.windowMs) == 0 && Recent(stored, now, limits.windowMs) == stored;
    assert now - stored[0] < limits.windowMs;
    var k := Stale(stored, now + wait, limits.windowMs);
    var still := stored[k..];
    assert k == 0 <==> now + wait - stored[0] < limits.windowMs;
    LaterCheck(limits, stored, now, wait);
    hide Recent, Stale, Sorted;
  }

  /** The decision of a later call, when the burst limit does not apply now. */
  lemma LaterCheck(limits: Limits, stored: seq<int>, now: int, wait: nat)
    requires Sorted(stored) && |Recent(stored, now, BURST_SPAN)| < limits.burstLimit
    ensures var d := Check(limits, stored, now + wait).0; var k := Stale(stored, now + wait, limits.windowMs);
      if |stored| - k >= limits.maxRequests then d.WindowDenied? else d.Admitted?
  {
    RecentIsSuffix(stored, now + wait, limits.windowMs);
    BurstFalls(stored, Stale(stored, now + wait, limits.windowMs), now, wait);
    hide Recent, Stale, Sorted;
  }

  lemma FewerLater(stored: seq<int>, k: nat, now: int, wait: nat)
    requires k <= |stored|
    ensures k + Stale(stored[k..], now + wait, BURST_SPAN) >= Stale(stored, now, BURST_SPAN)
  {
    var n, m := Stale(stored[k..], now + wait, BURST_SPAN), Stale(stored, now, BURST_SPAN);
    if k + n < |stored| {
      assert stored[k..][n] == stored[k + n];
      if k + n < m { assert false; }
    }
  }

  /** Without new calls the burst count only falls. */
  lemma BurstFalls(stored: seq<int>, k: nat, now: int, wait: nat)
    requires Sorted(stored) && k <= |stored|
    ensures |Recent(stored[k..], now + wait, BURST_SPAN)| <= |Recent(stored, now, BURST_SPAN)|
  {
    assert Sorted(stored[k..]);
    hide Sorted, Recent;
    RecentIsSuffix(stored, now, BURST_SPAN);
    RecentIsSuffix(stored[k..], now + wait, BURST_SPAN);
    FewerLater(stored, k, now, wait);
    hide Stale;
  }

  // ---------------------------------------------------------------- concurrency slots

  datatype SlotOp = Acquire(principalId: string) | Release(principalId: string)

  function RunSlots(limits: Limits, ops: seq<SlotOp>): map<string, int> {
    if ops == [] then map[]
    else
      var before := RunSlots(limits, ops[..|ops| - 1]);
      match ops[|ops| - 1]
      case Acquire(p) => Acquired(limits, before, p)
      case Release(p) => Released(before, p)
  }

  /** Slots of `p` taken and not given back. */
  function Held(limits: Limits, ops: seq<SlotOp>, p: string): int {
    if ops == [] then 0
    else
      var before, op := ops[..|ops| - 1], ops[|ops| - 1];
      Held(limits, before, p) +
      if op == Acquire(p) && Active(RunSlots(limits, before), p) < limits.maxConcurrent then 1
      else if op == Release(p) then -1 else 0
  }

  /** Nobody gives back a slot it does not hold. */
  ghost predicate Balanced(limits: Limits, ops: seq<SlotOp>, p: string) {
    forall i :: 0 <= i <= |ops| ==> Held(limits, ops[..i], p) >= 0
  }

  /** The count of a principal never exceeds the maximum, and is the number of slots it holds when slots are
      given back only by their holders. */
  lemma {:induction false} SlotsAreBounded(limits: Limits, ops: seq<SlotOp>, p: string)
    ensures 0 <= Active(RunSlots(limits, ops), p) <= Max(0, limits.maxConcurrent)
    ensures Balanced(limits, ops, p) ==> Active(RunSlots(limits, ops), p) == Held(limits, ops, p)
  {
    if ops != [] {
      var before := ops[..|ops| - 1];
      SlotsAreBounded(limits, before, p);
      if Balanced(limits, ops, p) {
        forall i | 0 <= i <= |before| ensures Held(limits, before[..i], p) >= 0 { assert before[..i] == ops[..i]; }
        assert ops[..|ops|] == ops;
        assert Held(limits, ops, p) >= 0;
      }
    }
  }
}

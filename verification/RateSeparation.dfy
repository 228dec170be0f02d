/** Whose calls the limiter of packages/gateway/src/rate-limiter.js counts together, and exactly when it admits one. */
module RateSeparation {
  import opened Collections
  import opened RateLimiting

  /** What a call by `principalId` for `action` at `now` is answered after a run of calls. */
  function AnswerTo(limits: Limits, calls: seq<Call>, principalId: string, action: string, now: int): Decision {
    Check(limits, Stored(Run(limits, calls).stored, KeyOf(principalId, action)), now).0
  }

  // ---------------------------------------------------------------- who is counted together

  /** A principal id that ends in a colon and the beginning of an action is taken for a shorter id with a longer action. */
  predicate RunsInto(p: string, a: string, q: string, b: string) {
    |p| < |q| && p + ":" <= q && a == q[|p| + 1..] + ":" + b
  }

  predicate CountsTogether(p: string, a: string, q: string, b: string) {
    (p == q && a == b) || RunsInto(p, a, q, b) || RunsInto(q, b, p, a)
  }

  lemma LongerKey(p: string, a: string, q: string, b: string)
    requires |p| < |q| && KeyOf(p, a) == KeyOf(q, b)
    ensures RunsInto(p, a, q, b)
  {
    var key := KeyOf(p, a);
    assert key[..|p| + 1] == p + ":" && key[|p| + 1..] == a;
    assert key[..|q|] == q && key[|q|..] == ":" + b;
    assert q[..|p| + 1] == p + ":";
    assert key[|p| + 1..] == key[|p| + 1..|q|] + key[|q|..];
    assert q[|p| + 1..] == key[|p| + 1..|q|];
  }

  lemma RunningIntoIsSameKey(p: string, a: string, q: string, b: string)
    requires RunsInto(p, a, q, b)
    ensures KeyOf(p, a) == KeyOf(q, b)
  {
    assert q == p + ":" + q[|p| + 1..];
  }

  lemma SameKeyIff(p: string, a: string, q: string, b: string)
    ensures KeyOf(p, a) == KeyOf(q, b) <==> CountsTogether(p, a, q, b)
  {
    if KeyOf(p, a) == KeyOf(q, b) {
      if |p| < |q| {
        LongerKey(p, a, q, b);
      } else if |q| < |p| {
        LongerKey(q, b, p, a);
      } else {
        assert KeyOf(p, a)[..|p|] == p && KeyOf(q, b)[..|p|] == q;
        assert KeyOf(p, a)[|p| + 1..] == a && KeyOf(q, b)[|p| + 1..] == b;
      }
    }
    if RunsInto(p, a, q, b) { RunningIntoIsSameKey(p, a, q, b); }
    if RunsInto(q, b, p, a) { RunningIntoIsSameKey(q, b, p, a); }
  }

  lemma ColonInside(p: string, q: string)
    ensures |p| < |q| && p + ":" <= q ==> ':' in q
  {
    if |p| < |q| && p + ":" <= q { assert q[|p|] == (p + ":")[|p|]; }
  }

  lemma NoColonNoRunningInto(p: string, a: string, q: string, b: string)
    requires ':' !in p && ':' !in q
    ensures CountsTogether(p, a, q, b) <==> p == q && a == b
  {
    ColonInside(p, q);
    ColonInside(q, p);
  }

  /** The calls that count for `(principalId, action)`. */
  function Counting(calls: seq<Call>, principalId: string, action: string): seq<Call> {
    if calls == [] then []
    else
      var last := calls[|calls| - 1];
      Counting(calls[..|calls| - 1], principalId, action)
        + if CountsTogether(last.principalId, last.action, principalId, action) then [last] else []
  }

  /** The calls of the same principal for the same action. */
  function OwnCalls(calls: seq<Call>, principalId: string, action: string): seq<Call> {
    if calls == [] then []
    else
      var last := calls[|calls| - 1];
      OwnCalls(calls[..|calls| - 1], principalId, action)
        + if last.principalId == principalId && last.action == action then [last] else []
  }

  lemma StepOfKey(limits: Limits, log: Log, other: Log, call: Call, key: string)
    requires Stored(log.stored, key) == Stored(other.stored, key)
    ensures KeyOf(call.principalId, call.action) != key ==> Stored(Step(limits, log, call).stored, key) == Stored(log.stored, key)
    ensures KeyOf(call.principalId, call.action) == key ==>
              Stored(Step(limits, log, call).stored, key) == Stored(Step(limits, other, call).stored, key)
  {
    hide Check, KeyOf;
  }

  lemma {:induction false} OthersLeaveTimes(limits: Limits, calls: seq<Call>, p: string, a: string)
    ensures var key := KeyOf(p, a);
      Stored(Run(limits, Counting(calls, p, a)).stored, key) == Stored(Run(limits, calls).stored, key)
    decreases |calls|
  {
    if calls != [] {
      var before, last := calls[..|calls| - 1], calls[|calls| - 1];
      OthersLeaveTimes(limits, before, p, a);
      SameKeyIff(last.principalId, last.action, p, a);
      assert calls == before + [last];
      hide KeyOf, CountsTogether, Check, Run, Step, Stored;
      RunLast(limits, Counting(before, p, a), last);
      RunLast(limits, before, last);
      StepOfKey(limits, Run(limits, before), Run(limits, Counting(before, p, a)), last, KeyOf(p, a));
      assert Counting(before, p, a) + [] == Counting(before, p, a);
    }
  }

  /** The answer depends on the counting calls alone. */
  lemma OnlyCountingCallsMatter(limits: Limits, calls: seq<Call>, p: string, a: string, now: int)
    ensures AnswerTo(limits, calls, p, a, now) == AnswerTo(limits, Counting(calls, p, a), p, a, now)
  {
    OthersLeaveTimes(limits, calls, p, a);
  }

  ghost predicate NoColons(calls: seq<Call>) {
    forall i :: 0 <= i < |calls| ==> ':' !in calls[i].principalId
  }

  lemma {:induction false} CountingAreOwn(calls: seq<Call>, p: string, a: string)
    requires NoColons(calls) && ':' !in p
    ensures Counting(calls, p, a) == OwnCalls(calls, p, a)
    decreases |calls|
  {
    if calls != [] {
      var last := calls[|calls| - 1];
      NoColonNoRunningInto(last.principalId, last.action, p, a);
      hide CountsTogether;
      CountingAreOwn(calls[..|calls| - 1], p, a);
    }
  }

  /** Principals whose ids have no colon are counted apart, and so are their actions: a call is answered as if only that
      principal's calls for that action had come before. */
  lemma EachPrincipalCountsAlone(limits: Limits, calls: seq<Call>, p: string, a: string, now: int)
    requires NoColons(calls) && ':' !in p
    ensures AnswerTo(limits, calls, p, a, now) == AnswerTo(limits, OwnCalls(calls, p, a), p, a, now)
  {
    OnlyCountingCallsMatter(limits, calls, p, a, now);
    CountingAreOwn(calls, p, a);
  }

  /** In general, two pairs are always answered alike, whatever the limits and calls, exactly when they count together. */
  lemma AnsweredAlikeIff(p: string, a: string, q: string, b: string)
    ensures (forall limits, calls, now :: AnswerTo(limits, calls, p, a, now) == AnswerTo(limits, calls, q, b, now))
       <==> CountsTogether(p, a, q, b)
  {
    SameKeyIff(p, a, q, b);
    hide CountsTogether;
    if KeyOf(p, a) != KeyOf(q, b) {
      var limits, calls := Limits(60000, 1, 10, 1), [Call(p, a, 0)];
      OneCallTells(limits, p, a, q, b);
      hide AnswerTo;
      assert AnswerTo(limits, calls, p, a, 0) != AnswerTo(limits, calls, q, b, 0);
    }
  }

  lemma OneCallTells(limits: Limits, p: string, a: string, q: string, b: string)
    requires limits == Limits(60000, 1, 10, 1) && KeyOf(p, a) != KeyOf(q, b)
    ensures AnswerTo(limits, [Call(p, a, 0)], p, a, 0).WindowDenied?
    ensures AnswerTo(limits, [Call(p, a, 0)], q, b, 0).Admitted?
  {
    var call := Call(p, a, 0);
    assert [call][..0] == [] && Run(limits, []) == Log(map[], map[]);
    assert Recent([], 0, 60000) == [] && Recent([], 0, BURST_SPAN) == [];
    var log := Run(limits, [call]);
    assert log == Step(limits, Log(map[], map[]), call);
    assert Stored(log.stored, KeyOf(p, a)) == [0] && Stored(log.stored, KeyOf(q, b)) == [];
    assert [0][1..] == [];
    assert Recent([0], 0, 60000) == [0] && Recent([0], 0, BURST_SPAN) == [0];
  }

  // ---------------------------------------------------------------- when a call is admitted

  lemma CountKept(admitted: seq<int>, kept: seq<int>, now: int, span: int)
    requires Keeps(admitted, kept, now, span)
    requires forall i :: 0 <= i < |kept| ==> now - span < kept[i] <= now
    ensures Count(admitted, now - span + 1, now + 1) == |kept|
  {
    var n := |admitted| - |kept|;
    var gone := admitted[..n];
    assert admitted == gone + kept;
    forall i | 0 <= i < n ensures gone[i] <= now - span { assert gone[i] == admitted[i]; }
    CountNone(gone, now - span + 1, now + 1);
    CountAll(kept, now - span + 1, now + 1);
    CountSplit(gone, kept, now - span + 1, now + 1);
    hide Count;
  }

  lemma {:induction false} CountAll(times: seq<int>, from: int, to: int)
    requires forall i :: 0 <= i < |times| ==> from <= times[i] < to
    ensures Count(times, from, to) == |times|
  {
    if times != [] { CountAll(times[1..], from, to); }
  }

  /** Kept times are recent ones of the admitted. */
  lemma KeptAreRecent(admitted: seq<int>, stored: seq<int>, now: int, span: int, wide: int)
    requires Keeps(admitted, Recent(stored, now, span), now, wide)
    requires forall i :: 0 <= i < |admitted| ==> admitted[i] <= now
    ensures var kept := Recent(stored, now, span); forall i :: 0 <= i < |kept| ==> now - span < kept[i] <= now
  {
    var kept := Recent(stored, now, span);
    forall i | 0 <= i < |kept| ensures now - span < kept[i] <= now {
      TimesAreRecent(stored, now, span, i);
      assert kept[i] == admitted[|admitted| - |kept| + i];
    }
  }

  lemma WindowCounts(limits: Limits, stored: seq<int>, admitted: seq<int>, now: int)
    requires KeyInv(limits, stored, admitted, now)
    ensures |Recent(stored, now, limits.windowMs)| == Count(admitted, now - limits.windowMs + 1, now + 1)
  {
    WindowKeeps(limits, stored, admitted, now, now);
    assert forall i :: 0 <= i < |admitted| ==> admitted[i] <= now;
    hide KeyInv, Recent, Keeps, Count;
    KeptAreRecent(admitted, stored, now, limits.windowMs, limits.windowMs);
    CountKept(admitted, Recent(stored, now, limits.windowMs), now, limits.windowMs);
  }

  /** The burst filter drops a prefix. */
  lemma BurstIsTail(admitted: seq<int>, times: seq<int>, burst: seq<int>, now: int, span: int, wide: int)
    requires Keeps(admitted, times, now, wide) && Keeps(admitted, burst, now, span) && |burst| <= |times|
    requires forall k :: 0 <= k < |times| ==> now - wide < times[k]
    ensures forall i :: 0 <= i < |burst| ==> now - wide < burst[i]
  {
    forall i | 0 <= i < |burst| ensures now - wide < burst[i] {
      assert burst[i] == admitted[|admitted| - |burst| + i] == times[|times| - |burst| + i];
    }
  }

  lemma {:induction false} RecentShorter(times: seq<int>, now: int, span: int)
    ensures |Recent(times, now, span)| <= |times|
  {
    if times != [] { RecentShorter(times[1..], now, span); }
  }

  lemma BurstCountsOf(limits: Limits, times: seq<int>, admitted: seq<int>, now: int)
    requires Keeps(admitted, times, now, limits.windowMs)
    requires Keeps(admitted, Recent(times, now, BURST_SPAN), now, BurstSpan(limits))
    requires forall i :: 0 <= i < |admitted| ==> admitted[i] <= now
    requires forall i :: 0 <= i < |times| ==> now - limits.windowMs < times[i] <= now
    ensures |Recent(times, now, BURST_SPAN)| == Count(admitted, now - BurstSpan(limits) + 1, now + 1)
  {
    var burst := Recent(times, now, BURST_SPAN);
    KeptAreRecent(admitted, times, now, BURST_SPAN, BurstSpan(limits));
    RecentShorter(times, now, BURST_SPAN);
    hide Recent;
    BurstIsTail(admitted, times, burst, now, BurstSpan(limits), limits.windowMs);
    hide Keeps, Count;
    CountKept(admitted, burst, now, BurstSpan(limits));
  }

  lemma BurstCounts(limits: Limits, stored: seq<int>, admitted: seq<int>, now: int)
    requires KeyInv(limits, stored, admitted, now)
    ensures var times := Recent(stored, now, limits.windowMs);
      |Recent(times, now, BURST_SPAN)| == Count(admitted, now - BurstSpan(limits) + 1, now + 1)
  {
    assert Sorted(admitted) && forall i :: 0 <= i < |admitted| ==> admitted[i] <= now;
    hide Recent, Count, BurstSpan;
    WindowKeeps(limits, stored, admitted, now, now);
    hide KeyInv, Sorted, Keeps;
    BurstKeeps(limits, stored, admitted, now);
    KeptAreRecent(admitted, stored, now, limits.windowMs, limits.windowMs);
    BurstCountsOf(limits, Recent(stored, now, limits.windowMs), admitted, now);
  }

  /** Exactly when a call is admitted, and what it is told: with a clock that does not go back, it is refused for its burst
      when burstLimit calls were admitted in the last second, or window if that is shorter; else for its window when
      maxRequests were admitted in it; and any other call is admitted. */
  lemma DecisionIff(limits: Limits, calls: seq<Call>, p: string, a: string, now: int)
    requires InOrder(calls) && forall i :: 0 <= i < |calls| ==> calls[i].now <= now
    ensures var times := Stored(Run(limits, calls).admitted, KeyOf(p, a)); var d := AnswerTo(limits, calls, p, a, now);
      var inBurst, inWindow := Count(times, now - BurstSpan(limits) + 1, now + 1), Count(times, now - limits.windowMs + 1, now + 1);
      && (d.BurstDenied? <==> inBurst >= limits.burstLimit)
      && (d.WindowDenied? <==> inBurst < limits.burstLimit && inWindow >= limits.maxRequests)
      && (d.Admitted? ==> d.remaining == limits.maxRequests - inWindow - 1 && d.resetMs == limits.windowMs)
  {
    var key := KeyOf(p, a);
    RunKeepsLog(limits, calls, now);
    var log := Run(limits, calls);
    assert KeyInv(limits, Stored(log.stored, key), Stored(log.admitted, key), now);
    hide LogInv, Run, InOrder, KeyOf;
    WindowCounts(limits, Stored(log.stored, key), Stored(log.admitted, key), now);
    BurstCounts(limits, Stored(log.stored, key), Stored(log.admitted, key), now);
    hide KeyInv, Recent, Count, Stored, BurstSpan;
  }
}

/** Backpressure in the asynchronous Redis adapter: how far the waiting list can grow beyond the queue depth, and exactly
    when it cannot. A submission reads the list's length in one step and pushes to it in a later one. */
module RedisDepth {
  import opened Collections
  import opened JobStates
  import opened QueueModel
  import opened RedisSteps
  import opened RedisRuns
  import opened RedisKeys

  function CountIf<T>(xs: seq<T>, f: T -> bool): (n: nat)
    ensures n <= |xs|
  {
    if xs == [] then 0 else (if f(xs[0]) then 1 else 0) + CountIf(xs[1..], f)
  }

  lemma {:induction false} CountUpdate<T>(xs: seq<T>, i: nat, x: T, f: T -> bool)
    requires i < |xs|
    ensures CountIf(xs[i := x], f) + (if f(xs[i]) then 1 else 0) == CountIf(xs, f) + (if f(x) then 1 else 0)
    decreases |xs|
  {
    if i == 0 {
      assert xs[i := x][1..] == xs[1..];
    } else {
      assert xs[i := x][1..] == xs[1..][i - 1 := x];
      CountUpdate(xs[1..], i - 1, x, f);
    }
  }

  lemma {:induction false} CountNone<T>(xs: seq<T>, f: T -> bool)
    requires forall x :: x in xs ==> !f(x)
    ensures CountIf(xs, f) == 0
    decreases |xs|
  {
    if xs != [] {
      var head := xs[0];
      assert head in xs;
      CountNone(xs[1..], f);
    }
  }

  // ---------------------------------------------------------------- the bound

  /** The submission has passed the depth check and not yet pushed. */
  predicate IsPushing(p: Producer) {
    p.pc.WriteJob? || p.pc.PushJob?
  }

  /** The submission may still push. */
  predicate MayPush(p: Producer) {
    p.pc.CheckKey? || p.pc.ReadExisting? || p.pc.ReadDepth? || IsPushing(p)
  }

  predicate HasJob(w: Worker) {
    InHand(w).Some?
  }

  function Pushing(s: System): nat {
    CountIf(s.producers, IsPushing)
  }

  /** What waits, or could come to wait without another depth check. */
  function Load(s: System): nat {
    |s.store.waiting| + Pushing(s) + CountIf(s.workers, HasJob)
  }

  lemma ProducerLoad(cfg: Config, st: Store, p: Producer, now: int)
    ensures var (st', pc) := ProducerStep(cfg, st, p, now); var p' := p.(pc := pc);
      && (|st'.waiting| + (if IsPushing(p') then 1 else 0) <= |st.waiting| + (if IsPushing(p) then 1 else 0)
          || (|st'.waiting| == |st.waiting| < cfg.maxQueueDepth && !IsPushing(p) && IsPushing(p')))
      && |st'.waiting| + (if MayPush(p') then 1 else 0) <= |st.waiting| + (if MayPush(p) then 1 else 0)
  {}

  lemma WorkerLoad(cfg: Config, st: Store, w: Worker, x: Input)
    ensures var (st', w') := WorkerStep(cfg, st, w, x);
      |st'.waiting| + (if HasJob(w') then 1 else 0) <= |st.waiting| + (if HasJob(w) then 1 else 0)
  {}

  /** Only passing the depth check adds to the load. */
  lemma StepLoad(s: System, a: Action)
    ensures Load(Step(s, a)) <= Load(s)
         || (|Step(s, a).store.waiting| < s.cfg.maxQueueDepth && Load(Step(s, a)) <= s.cfg.maxQueueDepth - 1 + Pushing(Step(s, a)) + |s.workers|)
  {
    match a
    case Produce(i, now) =>
      if i < |s.producers| {
        var p := s.producers[i];
        ProducerLoad(s.cfg, s.store, p, now);
        CountUpdate(s.producers, i, p.(pc := ProducerStep(s.cfg, s.store, p, now).1), IsPushing);
        hide ProducerStep;
      }
    case Work(i, x) =>
      if i < |s.workers| {
        WorkerLoad(s.cfg, s.store, s.workers[i], x);
        CountUpdate(s.workers, i, WorkerStep(s.cfg, s.store, s.workers[i], x).1, HasJob);
        hide WorkerStep;
      }
    case _ =>
  }

  /** At no point of the run are more than c submissions between depth check and push. */
  predicate AtMostPushing(s: System, actions: seq<Action>, c: nat)
    decreases |actions|
  {
    Pushing(s) <= c && (actions != [] ==> AtMostPushing(Step(s, actions[0]), actions[1..], c))
  }

  lemma {:induction false} LoadIsBounded(s: System, actions: seq<Action>, c: nat)
    requires AtMostPushing(s, actions, c)
    requires Load(s) <= Max(0, s.cfg.maxQueueDepth - 1 + c + |s.workers|)
    ensures Load(Run(s, actions)) <= Max(0, s.cfg.maxQueueDepth - 1 + c + |s.workers|)
    decreases |actions|
  {
    if actions != [] {
      var s' := Step(s, actions[0]);
      StepLoad(s, actions[0]);
      StepKeepsSubmissions(s, actions[0]);
      SameWorkers(s, actions[0]);
      hide Step, Load;
      assert Pushing(s') <= c;
      LoadIsBounded(s', actions[1..], c);
    }
  }

  lemma SameWorkers(s: System, a: Action)
    ensures |Step(s, a).workers| == |s.workers|
  {
    hide ProducerStep, WorkerStep;
  }

  /** With any ids and keys, in every interleaving: where no more than c submissions are between depth check and push at
      a time, at most depth - 1 + c + workers jobs wait. */
  lemma WaitingIsBounded(start: System, actions: seq<Action>, c: nat)
    requires IsInitial(start) && AtMostPushing(start, actions, c)
    ensures |Run(start, actions).store.waiting| <= Max(0, start.cfg.maxQueueDepth - 1 + c + |start.workers|)
  {
    CountNone(start.producers, IsPushing);
    CountNone(start.workers, HasJob);
    LoadIsBounded(start, actions, c);
  }

  // ---------------------------------------------------------------- when the depth is kept

  /** Nothing ever adds to the jobs there are or may be. */
  lemma StepKeepsPotential(s: System, a: Action)
    ensures Potential(Step(s, a)) <= Potential(s)
  {
    match a
    case Produce(i, now) =>
      if i < |s.producers| {
        var p := s.producers[i];
        ProducerLoad(s.cfg, s.store, p, now);
        CountUpdate(s.producers, i, p.(pc := ProducerStep(s.cfg, s.store, p, now).1), MayPush);
        hide ProducerStep;
      }
    case Work(i, x) =>
      if i < |s.workers| {
        WorkerLoad(s.cfg, s.store, s.workers[i], x);
        CountUpdate(s.workers, i, WorkerStep(s.cfg, s.store, s.workers[i], x).1, HasJob);
        hide WorkerStep;
      }
    case _ =>
  }

  function Potential(s: System): nat {
    |s.store.waiting| + CountIf(s.producers, MayPush) + CountIf(s.workers, HasJob)
  }

  lemma {:induction false} RunKeepsPotential(s: System, actions: seq<Action>)
    ensures Potential(Run(s, actions)) <= Potential(s)
    decreases |actions|
  {
    hide Step, Potential;
    if actions != [] {
      StepKeepsPotential(s, actions[0]);
      RunKeepsPotential(Step(s, actions[0]), actions[1..]);
    }
  }

  lemma FewSubmissionsKeepDepth(start: System, actions: seq<Action>)
    requires IsInitial(start)
    ensures |Run(start, actions).store.waiting| <= |start.producers|
  {
    RunKeepsPotential(start, actions);
    CountNone(start.workers, HasJob);
  }

  /** Without any depth nothing passes the check. */
  ghost predicate NothingPasses(s: System) {
    s.cfg.maxQueueDepth <= 0 && Load(s) == 0
  }

  lemma {:induction false} NothingWaits(s: System, actions: seq<Action>)
    requires NothingPasses(s)
    ensures |Run(s, actions).store.waiting| == 0
    decreases |actions|
  {
    if actions != [] {
      StepLoad(s, actions[0]);
      StepKeepsSubmissions(s, actions[0]);
      hide Step;
      NothingWaits(Step(s, actions[0]), actions[1..]);
    }
  }

  /** The first k submissions are past the checks, the others have not begun, and the store is empty. */
  ghost predicate Queueing(s: System, k: nat) {
    && k <= |s.producers| && s.store == Store(map[], [], map[], map[])
    && (forall i :: 0 <= i < k ==> s.producers[i].pc.WriteJob?)
    && (forall i :: k <= i < |s.producers| ==> s.producers[i].pc == CheckKey)
  }

  lemma {:induction false} AllPassChecks(s: System, k: nat) returns (actions: seq<Action>)
    requires Queueing(s, k) && s.cfg.maxQueueDepth >= 1
    ensures Queueing(Run(s, actions), |s.producers|) && |Run(s, actions).producers| == |s.producers|
    decreases |s.producers| - k
  {
    if k == |s.producers| {
      return [];
    }
    PassesChecks(s, k, 0);
    var first := Times(Produce(k, 0), 2);
    hide Step, Times;
    var rest := AllPassChecks(Run(s, first), k + 1);
    actions := first + rest;
    RunSplit(s, first, rest);
  }

  /** A submission past the checks writes and pushes its job. */
  lemma Pushes(s: System, i: nat)
    requires i < |s.producers| && s.producers[i].pc.WriteJob?
    ensures var s' := Run(s, Times(Produce(i, 0), 2));
      && |s'.store.waiting| == |s.store.waiting| + 1 && |s'.producers| == |s.producers|
      && forall j :: 0 <= j < |s.producers| && j != i ==> s'.producers[j] == s.producers[j]
  {
    var a := Produce(i, 0);
    var s1 := Step(s, a);
    assert s1.producers[i].pc.PushJob? && s1.store.waiting == s.store.waiting;
    assert |Step(s1, a).store.waiting| == |s1.store.waiting| + 1;
    RunTwo(s, a);
  }

  lemma {:induction false} AllPush(s: System, k: nat) returns (actions: seq<Action>)
    requires k <= |s.producers| && forall i :: k <= i < |s.producers| ==> s.producers[i].pc.WriteJob?
    ensures |Run(s, actions).store.waiting| == |s.store.waiting| + |s.producers| - k
    decreases |s.producers| - k
  {
    if k == |s.producers| {
      return [];
    }
    Pushes(s, k);
    var first := Times(Produce(k, 0), 2);
    hide Step, Times;
    var rest := AllPush(Run(s, first), k + 1);
    actions := first + rest;
    RunSplit(s, first, rest);
  }

  /** All submissions can pass the depth check before any of them pushes. */
  lemma EverySubmissionWaits(start: System) returns (actions: seq<Action>)
    requires IsInitial(start) && start.cfg.maxQueueDepth >= 1
    ensures |Run(start, actions).store.waiting| == |start.producers|
  {
    var first := AllPassChecks(start, 0);
    hide Step;
    var rest := AllPush(Run(start, first), 0);
    actions := first + rest;
    RunSplit(start, first, rest);
  }

  /** From an empty store, with any ids and keys: every interleaving keeps the waiting list within the queue depth exactly
      when there are no more submissions than that, or nothing is ever accepted. */
  lemma DepthHoldsIff(start: System)
    requires IsInitial(start)
    ensures (forall actions :: |Run(start, actions).store.waiting| <= Max(0, start.cfg.maxQueueDepth))
       <==> |start.producers| <= start.cfg.maxQueueDepth || start.cfg.maxQueueDepth <= 0
  {
    if start.cfg.maxQueueDepth <= 0 {
      CountNone(start.producers, IsPushing);
      CountNone(start.workers, HasJob);
      forall actions ensures |Run(start, actions).store.waiting| == 0 { NothingWaits(start, actions); }
    } else if |start.producers| <= start.cfg.maxQueueDepth {
      forall actions ensures |Run(start, actions).store.waiting| <= |start.producers| { FewSubmissionsKeepDepth(start, actions); }
    } else {
      var actions := EverySubmissionWaits(start);
    }
  }
}

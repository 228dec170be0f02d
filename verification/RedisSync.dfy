/** The synchronous calls of packages/queue/src/redis-queue-adapter.js: their functions, the class that
    performs them on a shared store, their relation to the asynchronous calls, and exactly when they
    agree with the in-memory queue. */
module RedisSync {
  import opened Collections
  import opened JobStates
  import opened QueueModel
  import opened QueueInvariant
  import opened QueueRuns
  import opened RedisSteps

  // ---------------------------------------------------------------- the calls as functions

  function EnqueueSync(cfg: Config, st: Store, data: JobData, freshId: string, now: int): (Store, EnqueueResult) {
    var key := KeyOf(data);
    if key.Some? && key.value in st.keys && st.keys[key.value] != "" && st.keys[key.value] in st.jobs then
      (st, Duplicate(st.jobs[st.keys[key.value]]))
    else if |st.waiting| >= cfg.maxQueueDepth then (st, BackpressureExceeded)
    else
      var job := NewJob(cfg, data, freshId, now);
      (Store(st.jobs[job.id := job], [job.id] + st.waiting, st.leases, if key.Some? then st.keys[key.value := job.id] else st.keys),
       Accepted(job))
  }

  function LeaseNextSync(cfg: Config, st: Store, worker: string, duration: Option<int>, token: string, now: int): (Store, Option<Leased>) {
    if st.waiting == [] then (st, None)
    else
      var id := st.waiting[|st.waiting| - 1];
      var popped := st.(waiting := st.waiting[..|st.waiting| - 1]);
      if id == "" || id !in st.jobs || st.jobs[id].state != Queued then (popped, None)
      else
        var ms := OrDefault(duration, cfg.defaultLeaseMs);
        var job := st.jobs[id].(state := Running, attempts := st.jobs[id].attempts + 1, updatedAt := now);
        (popped.(jobs := st.jobs[id := job], leases := st.leases[id := Lease(token, worker, now + ms, ms)]),
         Some(Leased(job, token, now + ms)))
  }

  function CompleteSync(st: Store, id: string, token: string, result: string, now: int): (Store, bool) {
    if id !in st.leases || st.leases[id].token != token then (st, false)
    else if id !in st.jobs || !IsValidTransition(st.jobs[id].state, Completed) then (st, false)
    else
      (st.(jobs := st.jobs[id := st.jobs[id].(state := Completed, result := Some(result), updatedAt := now)], leases := st.leases - {id}),
       true)
  }

  /** The token is not looked at. */
  function FailSync(st: Store, id: string, token: string, error: JobError, now: int): (Store, bool) {
    if id !in st.jobs then (st, false)
    else
      var job := st.jobs[id];
      if job.attempts < job.maxRetries then
        (st.(jobs := st.jobs[id := job.(state := Queued, updatedAt := now)], leases := st.leases - {id}, waiting := st.waiting + [id]),
         true)
      else
        (st.(jobs := st.jobs[id := job.(state := Failed, error := Some(error), updatedAt := now)], leases := st.leases - {id}), true)
  }

  // ---------------------------------------------------------------- the calls as they run

  /** `SynchronousRedisClient`: the store that several adapters share, one method per command used. */
  class SynchronousRedisClient {
    var jobs: map<string, Job>
    var waiting: seq<string>
    var leases: map<string, Lease>
    var keys: map<string, string>

    ghost function State(): Store
      reads this
    {
      Store(jobs, waiting, leases, keys)
    }

    constructor ()
      ensures State() == Store(map[], [], map[], map[])
    {
      jobs, waiting, leases, keys := map[], [], map[], map[];
    }

    method LPush(id: string)
      modifies this`waiting
      ensures waiting == [id] + old(waiting)
    {
      waiting := [id] + waiting;
    }

    method RPush(id: string)
      modifies this`waiting
      ensures waiting == old(waiting) + [id]
    {
      waiting := waiting + [id];
    }

    method RPop() returns (id: Option<string>)
      modifies this`waiting
      ensures old(waiting) == [] ==> id == None && waiting == []
      ensures old(waiting) != [] ==> id.Some? && old(waiting) == waiting + [id.value]
    {
      if waiting == [] {
        return None;
      }
      id := Some(waiting[|waiting| - 1]);
      waiting := waiting[..|waiting| - 1];
    }
  }

  class RedisQueueAdapter {
    const cfg: Config
    const client: SynchronousRedisClient

    constructor (cfg: Config, client: SynchronousRedisClient)
      ensures this.cfg == cfg && this.client == client
    {
      this.cfg, this.client := cfg, client;
    }

    method Enqueue(data: JobData, freshId: string, now: int) returns (r: EnqueueResult)
      modifies client
      ensures (client.State(), r) == EnqueueSync(cfg, old(client.State()), data, freshId, now)
    {
      var key := KeyOf(data);
      if key.Some? && key.value in client.keys {
        var existing := client.keys[key.value];
        if existing != "" && existing in client.jobs {
          return Duplicate(client.jobs[existing]);
        }
      }
      if |client.waiting| >= cfg.maxQueueDepth {
        return BackpressureExceeded;
      }
      var job := NewJob(cfg, data, freshId, now);
      client.jobs := client.jobs[job.id := job];
      client.LPush(job.id);
      if key.Some? {
        client.keys := client.keys[key.value := job.id];
      }
      return Accepted(job);
    }

    method LeaseNextJob(worker: string, duration: Option<int>, token: string, now: int) returns (r: Option<Leased>)
      modifies client
      ensures (client.State(), r) == LeaseNextSync(cfg, old(client.State()), worker, duration, token, now)
    {
      var ms := OrDefault(duration, cfg.defaultLeaseMs);
      var popped := client.RPop();
      if popped.None? || popped.value == "" {
        return None;
      }
      var id := popped.value;
      if id !in client.jobs || client.jobs[id].state != Queued {
        return None;
      }
      var job := client.jobs[id].(state := Running, attempts := client.jobs[id].attempts + 1, updatedAt := now);
      client.jobs := client.jobs[id := job];
      client.leases := client.leases[id := Lease(token, worker, now + ms, ms)];
      return Some(Leased(job, token, now + ms));
    }

    method CompleteJob(id: string, token: string, result: string, now: int) returns (ok: bool)
      modifies client
      ensures (client.State(), ok) == CompleteSync(old(client.State()), id, token, result, now)
    {
      if id !in client.leases || client.leases[id].token != token {
        return false;
      }
      if id !in client.jobs {
        return false;
      }
      var job := client.jobs[id];
      if !IsValidTransition(job.state, Completed) {
        return false;
      }
      client.jobs := client.jobs[id := job.(state := Completed, result := Some(result), updatedAt := now)];
      client.leases := client.leases - {id};
      return true;
    }

    method FailJob(id: string, token: string, error: JobError, now: int) returns (ok: bool)
      modifies client
      ensures (client.State(), ok) == FailSync(old(client.State()), id, token, error, now)
    {
      if id !in client.jobs {
        return false;
      }
      var job := client.jobs[id];
      client.leases := client.leases - {id};
      if job.attempts < job.maxRetries {
        client.jobs := client.jobs[id := job.(state := Queued, updatedAt := now)];
        client.RPush(id);
        return true;
      }
      client.jobs := client.jobs[id := job.(state := Failed, error := Some(error), updatedAt := now)];
      return true;
    }
  }

  // ---------------------------------------------------------------- a synchronous call is an asynchronous one left alone

  function Repeat(s: System, a: Action, n: nat): System
    decreases n
  {
    if n == 0 then s else Repeat(Step(s, a), a, n - 1)
  }

  lemma RepeatUpToFour(s: System, a: Action)
    ensures Repeat(s, a, 1) == Step(s, a)
    ensures Repeat(s, a, 2) == Step(Step(s, a), a)
    ensures Repeat(s, a, 3) == Step(Step(Step(s, a), a), a)
    ensures Repeat(s, a, 4) == Step(Step(Step(Step(s, a), a), a), a)
  {
    hide Step;
    var s1 := Step(s, a);
    var s2 := Step(s1, a);
    var s3 := Step(s2, a);
    assert Repeat(s, a, 1) == Repeat(s1, a, 0);
    assert Repeat(s, a, 2) == Repeat(s1, a, 1) == Repeat(s2, a, 0);
    assert Repeat(s, a, 3) == Repeat(s1, a, 2) == Repeat(s2, a, 1) == Repeat(s3, a, 0);
    assert Repeat(s, a, 4) == Repeat(s1, a, 3) == Repeat(s2, a, 2) == Repeat(s3, a, 1) == Repeat(Step(s3, a), a, 0);
  }

  lemma RepeatSix(s: System, a: Action)
    ensures Repeat(s, a, 6) == Repeat(Step(Step(s, a), a), a, 4)
  {
    hide Step;
    assert Repeat(s, a, 6) == Repeat(Step(s, a), a, 5) == Repeat(Step(Step(s, a), a), a, 4);
  }

  function OneProducer(cfg: Config, st: Store, p: Producer): System {
    System(cfg, st, [p], [])
  }

  function OneWorker(cfg: Config, st: Store, w: Worker): System {
    System(cfg, st, [], [w])
  }

  lemma ProducerAlone(cfg: Config, st: Store, p: Producer, now: int)
    ensures var (st', pc) := ProducerStep(cfg, st, p, now);
      Step(OneProducer(cfg, st, p), Produce(0, now)) == OneProducer(cfg, st', p.(pc := pc))
  {
    hide ProducerStep;
  }

  lemma WorkerAlone(cfg: Config, st: Store, w: Worker, x: Input)
    ensures var (st', w') := WorkerStep(cfg, st, w, x); Step(OneWorker(cfg, st, w), Work(0, x)) == OneWorker(cfg, st', w')
  {
    hide WorkerStep;
  }

  lemma EnqueueSyncIsEnqueueAlone(cfg: Config, st: Store, data: JobData, freshId: string, now: int)
    ensures var (st', r) := EnqueueSync(cfg, st, data, freshId, now);
      Repeat(OneProducer(cfg, st, Producer(data, freshId, CheckKey)), Produce(0, now), 6)
        == OneProducer(cfg, st', Producer(data, freshId, Answered(r)))
  {
    var a := Produce(0, now);
    var p0 := Producer(data, freshId, CheckKey);
    var (t1, c1) := ProducerStep(cfg, st, p0, now);
    var (t2, c2) := ProducerStep(cfg, t1, p0.(pc := c1), now);
    var (t3, c3) := ProducerStep(cfg, t2, p0.(pc := c2), now);
    var (t4, c4) := ProducerStep(cfg, t3, p0.(pc := c3), now);
    var (t5, c5) := ProducerStep(cfg, t4, p0.(pc := c4), now);
    var (t6, c6) := ProducerStep(cfg, t5, p0.(pc := c5), now);
    assert (t6, c6) == (EnqueueSync(cfg, st, data, freshId, now).0, Answered(EnqueueSync(cfg, st, data, freshId, now).1));
    hide ProducerStep, EnqueueSync, Step, Repeat;
    ProducerAlone(cfg, st, p0, now);
    ProducerAlone(cfg, t1, p0.(pc := c1), now);
    ProducerAlone(cfg, t2, p0.(pc := c2), now);
    ProducerAlone(cfg, t3, p0.(pc := c3), now);
    ProducerAlone(cfg, t4, p0.(pc := c4), now);
    ProducerAlone(cfg, t5, p0.(pc := c5), now);
    RepeatSix(OneProducer(cfg, st, p0), a);
    RepeatUpToFour(OneProducer(cfg, t2, p0.(pc := c2)), a);
  }

  /** How many commands a lease call sends. */
  function LeaseLength(st: Store): nat {
    if st.waiting == [] || st.waiting[|st.waiting| - 1] == "" then 1
    else
      var id := st.waiting[|st.waiting| - 1];
      if id !in st.jobs || st.jobs[id].state != Queued then 2 else 4
  }

  /** How many commands a complete call sends. */
  function CompleteLength(st: Store, id: string, token: string): nat {
    if id !in st.leases || st.leases[id].token != token then 1
    else if id !in st.jobs || !IsValidTransition(st.jobs[id].state, Completed) then 2
    else 4
  }

  /** How many commands a fail call sends. */
  function FailLength(st: Store, id: string): nat {
    if id !in st.jobs then 1 else if st.jobs[id].attempts < st.jobs[id].maxRetries then 4 else 3
  }

  /** Up to four steps of a lone worker, one after the other. */
  lemma WorkerAloneUpToFour(cfg: Config, st: Store, w: Worker, x: Input)
    ensures var (t1, w1) := WorkerStep(cfg, st, w, x); var (t2, w2) := WorkerStep(cfg, t1, w1, x);
      var (t3, w3) := WorkerStep(cfg, t2, w2, x); var (t4, w4) := WorkerStep(cfg, t3, w3, x);
      && Repeat(OneWorker(cfg, st, w), Work(0, x), 1) == OneWorker(cfg, t1, w1)
      && Repeat(OneWorker(cfg, st, w), Work(0, x), 2) == OneWorker(cfg, t2, w2)
      && Repeat(OneWorker(cfg, st, w), Work(0, x), 3) == OneWorker(cfg, t3, w3)
      && Repeat(OneWorker(cfg, st, w), Work(0, x), 4) == OneWorker(cfg, t4, w4)
  {
    hide WorkerStep, Step, Repeat;
    var (t1, w1) := WorkerStep(cfg, st, w, x);
    var (t2, w2) := WorkerStep(cfg, t1, w1, x);
    var (t3, w3) := WorkerStep(cfg, t2, w2, x);
    WorkerAlone(cfg, st, w, x);
    WorkerAlone(cfg, t1, w1, x);
    WorkerAlone(cfg, t2, w2, x);
    WorkerAlone(cfg, t3, w3, x);
    RepeatUpToFour(OneWorker(cfg, st, w), Work(0, x));
  }

  lemma LeaseSyncIsLeaseAlone(cfg: Config, st: Store, x: Input)
    ensures var (st', r) := LeaseNextSync(cfg, st, x.worker, x.duration, x.token, x.now);
      Repeat(OneWorker(cfg, st, Idle), Work(0, x), LeaseLength(st))
        == OneWorker(cfg, st', if r.Some? then Holding(st.waiting[|st.waiting| - 1], x.token) else Idle)
  {
    WorkerAloneUpToFour(cfg, st, Idle, x);
    hide Step, Repeat;
  }

  lemma CompleteSyncIsCompleteAlone(cfg: Config, st: Store, id: string, token: string, x: Input)
    requires x.completes
    ensures var (st', ok) := CompleteSync(st, id, token, x.result, x.now);
      Repeat(OneWorker(cfg, st, Holding(id, token)), Work(0, x), CompleteLength(st, id, token))
        == OneWorker(cfg, st', if ok then Idle else Holding(id, token))
  {
    WorkerAloneUpToFour(cfg, st, Holding(id, token), x);
    hide Step, Repeat;
  }

  lemma FailSyncIsFailAlone(cfg: Config, st: Store, id: string, token: string, x: Input)
    requires !x.completes
    ensures var (st', ok) := FailSync(st, id, token, x.error, x.now);
      Repeat(OneWorker(cfg, st, Holding(id, token)), Work(0, x), FailLength(st, id))
        == OneWorker(cfg, st', if ok then Idle else Holding(id, token))
  {
    WorkerAloneUpToFour(cfg, st, Holding(id, token), x);
    hide Step, Repeat;
  }

  // ---------------------------------------------------------------- agreement with the in-memory queue

  function Reverse(s: seq<string>): (r: seq<string>)
    ensures |r| == |s|
    ensures forall i :: 0 <= i < |s| ==> r[i] == s[|s| - 1 - i]
  {
    if s == [] then [] else Reverse(s[1..]) + [s[0]]
  }

  /** The Redis list is the waiting queue read backwards; everything else is the same. */
  ghost predicate Matches(st: Store, q: Queue) {
    && "" !in st.jobs
    && q.jobs.items == st.jobs
    && q.idempotency == st.keys
    && q.waiting == Reverse(st.waiting)
    && q.leases.items == st.leases
  }

  lemma EnqueueAgrees(cfg: Config, st: Store, q: Queue, data: JobData, freshId: string, now: int)
    requires Matches(st, q) && IdOf(data, freshId) != ""
    ensures var (st', r) := EnqueueSync(cfg, st, data, freshId, now); var o := Enqueue(cfg, q, data, freshId, now);
      Matches(st', o.queue) && r == o.result
  {
    var id := IdOf(data, freshId);
    assert Reverse([id] + st.waiting) == Reverse(st.waiting) + [id];
  }

  lemma CompleteAgrees(st: Store, q: Queue, id: string, token: string, result: string, now: int)
    requires Matches(st, q)
    ensures var (st', r) := CompleteSync(st, id, token, result, now); var o := Complete(q, id, token, result, now);
      Matches(st', o.queue) && r == o.result
  {}

  /** Without a look at the token, fail agrees exactly for the current lease holder and for unknown jobs. */
  lemma FailAgreesIff(st: Store, q: Queue, id: string, token: string, error: JobError, now: int)
    requires Matches(st, q)
    ensures var (st', r) := FailSync(st, id, token, error, now); var o := Fail(q, id, token, error, now);
      (Matches(st', o.queue) && r == o.result) <==> (Holds(q, id, token) || id !in q.jobs.items)
  {
    assert Reverse(st.waiting + [id]) == [id] + Reverse(st.waiting);
  }

  /** Redis neither reclaims nor caps: lease agrees exactly when no lease has expired and either nothing
      waits or the running cap is not reached. */
  lemma {:induction false} LeaseAgreesIff(cfg: Config, st: Store, q: Queue, worker: string, duration: Option<int>, token: string, now: int)
    requires Matches(st, q) && Inv(cfg, q)
    requires forall id :: id in q.leases.items ==> q.leases.items[id].token != token
    ensures var (st', r) := LeaseNextSync(cfg, st, worker, duration, token, now); var o := LeaseNext(cfg, q, worker, duration, token, now);
      (Matches(st', o.queue) && r == o.result)
        <==> (forall id :: id in q.leases.items ==> !IsStale(q, id, now)) && (q.waiting == [] || |q.leases.order| < cfg.maxRunningJobs)
  {
    if id :| id in q.leases.items && IsStale(q, id, now) {
      StaleDisagrees(cfg, st, q, worker, duration, token, now, id);
    } else {
      NothingToReclaim(q, q.leases.order, now);
      TakeAgreesIff(cfg, st, q, worker, duration, token, now);
    }
  }

  lemma {:induction false} NothingToReclaim(q: Queue, ids: seq<string>, now: int)
    requires forall id :: id in q.leases.items ==> !IsStale(q, id, now)
    ensures ReclaimAll(q, ids, now) == Outcome(q, (), [])
    decreases |ids|
  {
    if ids != [] {
      NothingToReclaim(q, ids[1..], now);
    }
  }

  lemma FrontIsQueued(cfg: Config, q: Queue)
    requires Inv(cfg, q) && q.waiting != []
    ensures q.waiting[0] in q.jobs.items && q.jobs.items[q.waiting[0]].state == Queued
  {
    assert q.waiting[0] in q.waiting;
  }

  /** With a queued job at the front. */
  lemma TakeFrontAgrees(cfg: Config, st: Store, q: Queue, worker: string, duration: Option<int>, token: string, now: int)
    requires Matches(st, q) && q.waiting != []
    requires q.waiting[0] in q.jobs.items && q.jobs.items[q.waiting[0]].state == Queued
    ensures var (st', r) := LeaseNextSync(cfg, st, worker, duration, token, now); var o := TakeWaiting(cfg, q, worker, duration, token, now);
      (Matches(st', o.queue) && r == o.result) <==> |q.leases.order| < cfg.maxRunningJobs
  {
    var n := |st.waiting| - 1;
    assert q.waiting[0] == st.waiting[n];
    assert Reverse(st.waiting[..n]) == q.waiting[1..];
    hide Reverse;
  }

  lemma TakeAgreesIff(cfg: Config, st: Store, q: Queue, worker: string, duration: Option<int>, token: string, now: int)
    requires Matches(st, q) && Inv(cfg, q)
    ensures var (st', r) := LeaseNextSync(cfg, st, worker, duration, token, now); var o := TakeWaiting(cfg, q, worker, duration, token, now);
      (Matches(st', o.queue) && r == o.result) <==> (q.waiting == [] || |q.leases.order| < cfg.maxRunningJobs)
  {
    if q.waiting != [] {
      FrontIsQueued(cfg, q);
      hide Inv, LeaseNextSync, TakeWaiting;
      TakeFrontAgrees(cfg, st, q, worker, duration, token, now);
    } else {
      hide Inv;
    }
  }

  /** Redis leaves the leases of running jobs alone. */
  lemma RedisKeepsLeases(cfg: Config, st: Store, worker: string, duration: Option<int>, token: string, now: int, id: string)
    requires id in st.leases && id in st.jobs && st.jobs[id].state == Running
    ensures var st' := LeaseNextSync(cfg, st, worker, duration, token, now).0; id in st'.leases && st'.leases[id] == st.leases[id]
  {}

  lemma TakenLeaseIsNew(cfg: Config, q: Queue, worker: string, duration: Option<int>, token: string, now: int, id: string)
    requires id !in q.leases.items
    ensures var q' := TakeWaiting(cfg, q, worker, duration, token, now).queue;
      id in q'.leases.items ==> q'.leases.items[id].token == token
  {}

  lemma StaleDisagrees(cfg: Config, st: Store, q: Queue, worker: string, duration: Option<int>, token: string, now: int, id: string)
    requires Matches(st, q) && Inv(cfg, q)
    requires id in q.leases.items && IsStale(q, id, now) && q.leases.items[id].token != token
    ensures !Matches(LeaseNextSync(cfg, st, worker, duration, token, now).0, LeaseNext(cfg, q, worker, duration, token, now).queue)
  {
    assert q.jobs.items[id].state == Running;
    ReclaimStaleKeepsInv(cfg, q, now);
    hide Inv, ReclaimStale, TakeWaiting, LeaseNextSync, IsStale;
    RedisKeepsLeases(cfg, st, worker, duration, token, now, id);
    TakenLeaseIsNew(cfg, ReclaimStale(q, now).queue, worker, duration, token, now, id);
  }

  // ---------------------------------------------------------------- whole runs

  datatype Reply = Submitted(enqueue: EnqueueResult) | Lent(lease: Option<Leased>) | Done(ok: bool)

  /** The calls both queues offer. */
  predicate IsShared(call: Call) {
    call.CallEnqueue? || call.CallLease? || call.CallComplete? || call.CallFail?
  }

  function AskQueue(cfg: Config, q: Queue, call: Call): (Queue, Reply)
    requires IsShared(call)
  {
    match call
    case CallEnqueue(data, freshId, now) => var o := Enqueue(cfg, q, data, freshId, now); (o.queue, Submitted(o.result))
    case CallLease(worker, duration, token, now) => var o := LeaseNext(cfg, q, worker, duration, token, now); (o.queue, Lent(o.result))
    case CallComplete(id, token, result, now) => var o := Complete(q, id, token, result, now); (o.queue, Done(o.result))
    case CallFail(id, token, error, now) => var o := Fail(q, id, token, error, now); (o.queue, Done(o.result))
  }

  function AskRedis(cfg: Config, st: Store, call: Call): (Store, Reply)
    requires IsShared(call)
  {
    match call
    case CallEnqueue(data, freshId, now) => var (st', r) := EnqueueSync(cfg, st, data, freshId, now); (st', Submitted(r))
    case CallLease(worker, duration, token, now) => var (st', r) := LeaseNextSync(cfg, st, worker, duration, token, now); (st', Lent(r))
    case CallComplete(id, token, result, now) => var (st', r) := CompleteSync(st, id, token, result, now); (st', Done(r))
    case CallFail(id, token, error, now) => var (st', r) := FailSync(st, id, token, error, now); (st', Done(r))
  }

  /** Ids and tokens are new, no lease has expired, the running cap is not reached, and fail is called by the holder. */
  ghost predicate Agreeable(cfg: Config, q: Queue, call: Call) {
    match call
    case CallEnqueue(data, freshId, _) =>
      IdOf(data, freshId) != "" && (IsDuplicate(q, data) || IsFull(cfg, q) || IdOf(data, freshId) !in q.jobs.items)
    case CallLease(_, _, token, now) =>
      && (forall id :: id in q.leases.items ==> q.leases.items[id].token != token && !IsStale(q, id, now))
      && (q.waiting == [] || |q.leases.order| < cfg.maxRunningJobs)
    case CallComplete(_, _, _, _) => true
    case CallFail(id, token, _, _) => Holds(q, id, token) || id !in q.jobs.items
    case _ => false
  }

  ghost predicate AgreeableRun(cfg: Config, q: Queue, calls: seq<Call>)
    decreases |calls|
  {
    calls == [] || (Agreeable(cfg, q, calls[0]) && IsShared(calls[0]) && AgreeableRun(cfg, AskQueue(cfg, q, calls[0]).0, calls[1..]))
  }

  ghost function QueueReplies(cfg: Config, q: Queue, calls: seq<Call>): (Queue, seq<Reply>)
    requires forall call :: call in calls ==> IsShared(call)
    decreases |calls|
  {
    if calls == [] then (q, [])
    else
      var (q', r) := AskQueue(cfg, q, calls[0]);
      var (end, rest) := QueueReplies(cfg, q', calls[1..]);
      (end, [r] + rest)
  }

  ghost function RedisReplies(cfg: Config, st: Store, calls: seq<Call>): (Store, seq<Reply>)
    requires forall call :: call in calls ==> IsShared(call)
    decreases |calls|
  {
    if calls == [] then (st, [])
    else
      var (st', r) := AskRedis(cfg, st, calls[0]);
      var (end, rest) := RedisReplies(cfg, st', calls[1..]);
      (end, [r] + rest)
  }

  lemma {:induction false} CallAgrees(cfg: Config, st: Store, q: Queue, call: Call)
    requires Matches(st, q) && Inv(cfg, q) && IsShared(call) && Agreeable(cfg, q, call)
    ensures var (st', r) := AskRedis(cfg, st, call); var (q', r') := AskQueue(cfg, q, call);
      Matches(st', q') && Inv(cfg, q') && r == r'
  {
    hide Matches, Inv, Reverse;
    match call
    case CallEnqueue(data, freshId, now) =>
      EnqueueAgrees(cfg, st, q, data, freshId, now);
      EnqueueKeepsInv(cfg, q, data, freshId, now);
    case CallLease(worker, duration, token, now) =>
      LeaseAgreesIff(cfg, st, q, worker, duration, token, now);
      LeaseNextKeepsInv(cfg, q, worker, duration, token, now);
    case CallComplete(id, token, result, now) =>
      CompleteAgrees(st, q, id, token, result, now);
      CompleteKeepsInv(cfg, q, id, token, result, now);
    case CallFail(id, token, error, now) =>
      FailAgreesIff(st, q, id, token, error, now);
      FailKeepsInv(cfg, q, id, token, error, now);
  }

  /** On such runs the Redis adapter answers every call exactly as the in-memory queue does, and holds the
      same jobs, keys, leases and waiting line at the end. */
  lemma {:induction false} RedisRefinesQueue(cfg: Config, st: Store, q: Queue, calls: seq<Call>)
    requires Matches(st, q) && Inv(cfg, q) && AgreeableRun(cfg, q, calls)
    requires forall call :: call in calls ==> IsShared(call)
    ensures var (st', replies) := RedisReplies(cfg, st, calls); var (q', replies') := QueueReplies(cfg, q, calls);
      Matches(st', q') && replies == replies'
    decreases |calls|
  {
    hide Matches, Inv, AskQueue, AskRedis, Agreeable;
    if calls != [] {
      CallAgrees(cfg, st, q, calls[0]);
      RedisRefinesQueue(cfg, AskRedis(cfg, st, calls[0]).0, AskQueue(cfg, q, calls[0]).0, calls[1..]);
    }
  }

  // ---------------------------------------------------------------- a stale fail, uninterrupted

  /** The job is running, or has failed for good already. */
  predicate FailFits(job: Job) {
    job.state == Running || (job.state == Failed && job.attempts >= job.maxRetries)
  }

  ghost predicate LineOk(st: Store) {
    && NoDup(st.waiting)
    && forall id :: id in st.waiting <==> id in st.jobs && st.jobs[id].state == Queued
  }

  /** Exactly which uninterrupted fail calls leave the waiting list right and make a legal state change: those on
      unknown or running jobs, and on failed jobs that have no attempt left. A repeated or late call on a job that
      was retried, or completed with attempts left, is not among them. Calls that overlap are the subject of
      `RedisOverlap`. */
  lemma FailIsSafeIff(st: Store, id: string, token: string, error: JobError, now: int)
    requires LineOk(st)
    ensures var st' := FailSync(st, id, token, error, now).0;
      (LineOk(st') && (id in st.jobs ==> IsValidTransition(st.jobs[id].state, st'.jobs[id].state)))
        <==> (id in st.jobs ==> FailFits(st.jobs[id]))
  {
    if id in st.jobs {
      var st' := FailSync(st, id, token, error, now).0;
      var before := st.jobs[id];
      if before.state == Queued {
        assert id in st.waiting;
        var i :| 0 <= i < |st.waiting| && st.waiting[i] == id;
        if before.attempts < before.maxRetries {
          assert st'.waiting[i] == st'.waiting[|st.waiting|];
          assert !NoDup(st'.waiting);
        } else {
          assert id in st'.waiting;
        }
      } else if before.state == Running {
        NoDupConcat(st.waiting, [id]);
      }
    }
  }

  lemma LeasedAtOnce(cfg: Config, data: JobData, freshId: string, x: Input)
    requires cfg.maxQueueDepth >= 1 && IdOf(data, freshId) != ""
    ensures var id := IdOf(data, freshId);
      var submitted := EnqueueSync(cfg, Store(map[], [], map[], map[]), data, freshId, x.now).0;
      var leased := LeaseNextSync(cfg, submitted, x.worker, x.duration, x.token, x.now).0;
      && leased.waiting == [] && leased.jobs.Keys == {id}
      && leased.jobs[id].state == Running && leased.jobs[id].attempts == 1 && leased.jobs[id].maxRetries == cfg.maxRetries
  {
    var id := IdOf(data, freshId);
    var job := NewJob(cfg, data, freshId, x.now);
    var submitted := EnqueueSync(cfg, Store(map[], [], map[], map[]), data, freshId, x.now).0;
    assert submitted.waiting == [] + [id] && submitted.jobs == map[id := job];
    hide EnqueueSync;
    assert LeaseNextSync(cfg, submitted, x.worker, x.duration, x.token, x.now).0.waiting == [];
  }

  lemma RetryWaits(st: Store, id: string, token: string, error: JobError, now: int)
    requires id in st.jobs && st.jobs[id].attempts < st.jobs[id].maxRetries
    ensures var failed := FailSync(st, id, token, error, now).0;
      && failed.waiting == st.waiting + [id] && failed.jobs.Keys == st.jobs.Keys && failed.jobs[id].state == Queued
      && failed.jobs[id].attempts == st.jobs[id].attempts && failed.jobs[id].maxRetries == st.jobs[id].maxRetries
  {}

  /** Such a call from an empty store: submit, lease, fail with an attempt left, and fail once more. */
  lemma RepeatedFailWaitsTwice(cfg: Config, data: JobData, freshId: string, x: Input)
    requires cfg.maxQueueDepth >= 1 && cfg.maxRetries >= 2 && IdOf(data, freshId) != ""
    ensures var id := IdOf(data, freshId);
      var submitted := EnqueueSync(cfg, Store(map[], [], map[], map[]), data, freshId, x.now).0;
      var leased := LeaseNextSync(cfg, submitted, x.worker, x.duration, x.token, x.now).0;
      var failed := FailSync(leased, id, x.token, x.error, x.now).0;
      LineOk(failed) && FailSync(failed, id, x.token, x.error, x.now).0.waiting == [id, id]
  {
    LeasedAtOnce(cfg, data, freshId, x);
    var id := IdOf(data, freshId);
    var submitted := EnqueueSync(cfg, Store(map[], [], map[], map[]), data, freshId, x.now).0;
    var leased := LeaseNextSync(cfg, submitted, x.worker, x.duration, x.token, x.now).0;
    hide EnqueueSync, LeaseNextSync, FailSync, IdOf;
    RetryWaits(leased, id, x.token, x.error, x.now);
    var failed := FailSync(leased, id, x.token, x.error, x.now).0;
    assert failed.waiting == [id];
    RetryWaits(failed, id, x.token, x.error, x.now);
  }

  // ---------------------------------------------------------------- the keys never clash

  function KJob(prefix: string, id: string): string { prefix + "job:" + id }
  function KWaiting(prefix: string): string { prefix + "waiting" }
  function KIdemp(prefix: string, key: string): string { prefix + "idemp:" + key }
  function KLease(prefix: string, id: string): string { prefix + "lease:" + id }

  /** Keeping jobs, idempotency entries and leases in separate maps is faithful: under one prefix their
      Redis keys never coincide, with each other or with the list, and determine the id. */
  lemma KeysNeverClash(prefix: string, a: string, b: string)
    ensures KJob(prefix, a) == KJob(prefix, b) ==> a == b
    ensures KIdemp(prefix, a) == KIdemp(prefix, b) ==> a == b
    ensures KLease(prefix, a) == KLease(prefix, b) ==> a == b
    ensures KJob(prefix, a) != KIdemp(prefix, b) && KJob(prefix, a) != KLease(prefix, b) && KIdemp(prefix, a) != KLease(prefix, b)
    ensures KWaiting(prefix) != KJob(prefix, a) && KWaiting(prefix) != KIdemp(prefix, a) && KWaiting(prefix) != KLease(prefix, a)
  {
    var n := |prefix|;
    assert KJob(prefix, a)[n + 4..] == a && KJob(prefix, b)[n + 4..] == b;
    assert KIdemp(prefix, a)[n + 6..] == a && KIdemp(prefix, b)[n + 6..] == b;
    assert KLease(prefix, a)[n + 6..] == a && KLease(prefix, b)[n + 6..] == b;
    assert KJob(prefix, a)[n] == 'j' && KIdemp(prefix, a)[n] == 'i' && KLease(prefix, a)[n] == 'l';
    assert KIdemp(prefix, b)[n] == 'i' && KLease(prefix, b)[n] == 'l' && KWaiting(prefix)[n] == 'w';
  }
}

/** What every method of the queue keeps. */
module QueueInvariant {
  import opened Collections
  import opened JobStates
  import opened QueueModel

  /** The attempts a job may ever use. */
  function AttemptLimit(cfg: Config): nat {
    Max(1, cfg.maxRetries)
  }

  // ---------------------------------------------------------------- jobs, waiting line and leases agree

  ghost predicate JobOk(cfg: Config, id: string, job: Job) {
    && job.id == id
    && job.maxRetries == cfg.maxRetries
    && job.state != ResourceLimit
    && job.attempts <= AttemptLimit(cfg)
    && (job.state == Queued ==> job.attempts < AttemptLimit(cfg))
    && (job.state == Running ==> 0 < job.attempts)
  }

  ghost predicate JobsOk(cfg: Config, q: Queue) {
    && q.jobs.WellFormed()
    && forall id :: id in q.jobs.items ==> JobOk(cfg, id, q.jobs.items[id])
  }

  ghost predicate WaitingOk(q: Queue) {
    && NoDup(q.waiting)
    && forall id :: id in q.waiting <==> id in q.jobs.items && q.jobs.items[id].state == Queued
  }

  ghost predicate LeasesOk(q: Queue) {
    && q.leases.WellFormed()
    && forall id :: id in q.leases.items <==> id in q.jobs.items && q.jobs.items[id].state == Running
  }

  /** Every idempotency entry names a live job that carries the key, and every keyed job is found by its key. */
  ghost predicate KeysOk(q: Queue) {
    && (forall k :: k in q.idempotency ==>
          q.idempotency[k] in q.jobs.items && q.jobs.items[q.idempotency[k]].key == Some(k))
    && (forall id :: id in q.jobs.items && q.jobs.items[id].key.Some? ==>
          q.jobs.items[id].key.value in q.idempotency && q.idempotency[q.jobs.items[id].key.value] == id)
  }

  // ---------------------------------------------------------------- the waiting line is fair

  predicate IsNew(jobs: map<string, Job>, id: string) {
    id in jobs && jobs[id].state == Queued && jobs[id].attempts == 0
  }

  /** The never-leased waiting jobs, in enqueue order. */
  ghost function NewOnes(jobs: map<string, Job>, order: seq<string>): (r: seq<string>)
    ensures forall id :: id in r <==> id in order && IsNew(jobs, id)
  {
    if order == [] then []
    else (if IsNew(jobs, order[0]) then [order[0]] else []) + NewOnes(jobs, order[1..])
  }

  ghost predicate AllRetried(jobs: map<string, Job>, ids: seq<string>) {
    forall id :: id in ids ==> id in jobs && jobs[id].attempts > 0
  }

  /** The waiting line is a block of retried jobs followed by all never-leased jobs in enqueue order. */
  ghost predicate FairOrder(q: Queue) {
    exists front :: AllRetried(q.jobs.items, front) && q.waiting == front + NewOnes(q.jobs.items, q.jobs.order)
  }

  // ---------------------------------------------------------------- capacity

  ghost predicate CapacityOk(cfg: Config, q: Queue) {
    && |q.leases.order| <= Max(0, cfg.maxRunningJobs)
    && |q.waiting| + |q.leases.order| <= Max(0, cfg.maxQueueDepth) + Max(0, cfg.maxRunningJobs)
  }

  /** Jobs, waiting line, leases, keys and capacity agree. */
  ghost predicate Consistent(cfg: Config, q: Queue) {
    && JobsOk(cfg, q)
    && WaitingOk(q)
    && LeasesOk(q)
    && KeysOk(q)
    && CapacityOk(cfg, q)
  }

  ghost predicate Inv(cfg: Config, q: Queue) {
    Consistent(cfg, q) && FairOrder(q)
  }

  lemma EmptyInv(cfg: Config)
    ensures Inv(cfg, EMPTY_QUEUE)
  {
    assert AllRetried(EMPTY_QUEUE.jobs.items, []);
  }

  // ---------------------------------------------------------------- the never-leased jobs

  lemma {:induction false} NewOnesSame(jobs: map<string, Job>, jobs': map<string, Job>, order: seq<string>)
    requires forall id :: id in order ==> (IsNew(jobs, id) <==> IsNew(jobs', id))
    ensures NewOnes(jobs, order) == NewOnes(jobs', order)
  {
    if order != [] {
      assert order[0] in order;
      NewOnesSame(jobs, jobs', order[1..]);
    }
  }

  lemma {:induction false} NewOnesMinus(jobs: map<string, Job>, jobs': map<string, Job>, order: seq<string>, gone: string)
    requires forall id :: id in order ==> (IsNew(jobs', id) <==> IsNew(jobs, id) && id != gone)
    ensures NewOnes(jobs', order) == Without(NewOnes(jobs, order), gone)
  {
    if order != [] {
      assert order[0] in order;
      NewOnesMinus(jobs, jobs', order[1..], gone);
      WithoutConcat(if IsNew(jobs, order[0]) then [order[0]] else [], NewOnes(jobs, order[1..]), gone);
    }
  }

  lemma {:induction false} NewOnesAppend(jobs: map<string, Job>, order: seq<string>, id: string)
    ensures NewOnes(jobs, order + [id]) == NewOnes(jobs, order) + if IsNew(jobs, id) then [id] else []
  {
    if order == [] {
      assert order + [id] == [id];
      assert NewOnes(jobs, [id][1..]) == [];
    } else {
      assert (order + [id])[1..] == order[1..] + [id];
      NewOnesAppend(jobs, order[1..], id);
    }
  }

  lemma {:induction false} NewOnesNoDup(jobs: map<string, Job>, order: seq<string>)
    requires NoDup(order)
    ensures NoDup(NewOnes(jobs, order))
  {
    if order != [] {
      NewOnesNoDup(jobs, order[1..]);
      assert order[0] !in order[1..];
    }
  }

  lemma WithoutHead(s: seq<string>)
    requires NoDup(s) && s != []
    ensures Without(s, s[0]) == s[1..]
  {
    assert s[0] !in s[1..];
  }

  /** A job that was and stays outside the never-leased ones changes; the line is untouched or gains it in front. */
  lemma FairAfterOther(q: Queue, q': Queue, id: string)
    requires FairOrder(q)
    requires id in q.jobs.items && id in q'.jobs.items && q'.jobs.order == q.jobs.order
    requires q'.jobs.items == q.jobs.items[id := q'.jobs.items[id]]
    requires !IsNew(q.jobs.items, id) && !IsNew(q'.jobs.items, id)
    requires q'.jobs.items[id].attempts >= q.jobs.items[id].attempts
    requires q'.waiting == q.waiting || (q'.waiting == [id] + q.waiting && q'.jobs.items[id].attempts > 0)
    ensures FairOrder(q')
  {
    NewOnesSame(q.jobs.items, q'.jobs.items, q.jobs.order);
    var tail := NewOnes(q.jobs.items, q.jobs.order);
    var front :| AllRetried(q.jobs.items, front) && q.waiting == front + tail;
    if q'.waiting == q.waiting {
      assert AllRetried(q'.jobs.items, front);
    } else {
      assert AllRetried(q'.jobs.items, [id] + front);
      assert q'.waiting == ([id] + front) + tail;
    }
  }

  /** A waiting job leaves the line. */
  lemma FairAfterLeaving(q: Queue, q': Queue, id: string)
    requires FairOrder(q)
    requires id in q.jobs.items && id in q'.jobs.items && q'.jobs.order == q.jobs.order
    requires q'.jobs.items == q.jobs.items[id := q'.jobs.items[id]]
    requires !IsNew(q'.jobs.items, id)
    requires q'.waiting == Without(q.waiting, id)
    ensures FairOrder(q')
  {
    var tail := NewOnes(q.jobs.items, q.jobs.order);
    var front :| AllRetried(q.jobs.items, front) && q.waiting == front + tail;
    NewOnesMinus(q.jobs.items, q'.jobs.items, q.jobs.order, id);
    WithoutConcat(front, tail, id);
    assert AllRetried(q'.jobs.items, Without(front, id));
  }

  // ---------------------------------------------------------------- the primitive changes

  /** Only the record of `id` changed, and not its key. */
  ghost predicate Rewrites(q: Queue, q': Queue, id: string) {
    && id in q.jobs.items
    && id in q'.jobs.items
    && q'.jobs.order == q.jobs.order
    && q'.jobs.items == q.jobs.items[id := q'.jobs.items[id]]
    && q'.jobs.items[id].key == q.jobs.items[id].key
    && q'.idempotency == q.idempotency
  }

  lemma RewriteKeepsJobs(cfg: Config, q: Queue, q': Queue, id: string)
    requires JobsOk(cfg, q) && Rewrites(q, q', id) && JobOk(cfg, id, q'.jobs.items[id])
    ensures JobsOk(cfg, q')
  {
    hide NoDup;
  }

  lemma RewriteKeepsKeys(q: Queue, q': Queue, id: string)
    requires KeysOk(q) && Rewrites(q, q', id)
    ensures KeysOk(q')
  {}

  lemma EndOfLease(q: Queue, q': Queue, id: string)
    requires LeasesOk(q) && Rewrites(q, q', id) && q'.jobs.items[id].state != Running
    requires q'.leases == q.leases.Delete(id)
    ensures LeasesOk(q')
    ensures |q'.leases.order| == |q.leases.order| - if q.jobs.items[id].state == Running then 1 else 0
  {
    DeleteKeepsWellFormed(q.leases, id);
    hide NoDup;
  }

  lemma StartOfLease(q: Queue, q': Queue, id: string, lease: Lease)
    requires LeasesOk(q) && Rewrites(q, q', id)
    requires q.jobs.items[id].state != Running && q'.jobs.items[id].state == Running
    requires q'.leases == q.leases.Set(id, lease)
    ensures LeasesOk(q')
    ensures |q'.leases.order| == |q.leases.order| + 1
  {
    SetKeepsWellFormed(q.leases, id, lease);
    hide NoDup;
  }

  lemma JoinWaiting(q: Queue, q': Queue, id: string)
    requires WaitingOk(q) && Rewrites(q, q', id)
    requires q.jobs.items[id].state != Queued && q'.jobs.items[id].state == Queued
    requires q'.waiting == [id] + q.waiting
    ensures WaitingOk(q')
  {
    NoDupConcat([id], q.waiting);
    hide NoDup;
  }

  lemma LeaveWaiting(q: Queue, q': Queue, id: string)
    requires WaitingOk(q) && Rewrites(q, q', id)
    requires q'.jobs.items[id].state != Queued
    requires q'.waiting == Without(q.waiting, id)
    ensures WaitingOk(q')
    ensures |q'.waiting| == |q.waiting| - if q.jobs.items[id].state == Queued then 1 else 0
  {
    WithoutKeepsNoDup(q.waiting, id);
    hide NoDup;
  }

  lemma RequeueKeepsInv(cfg: Config, q: Queue, id: string, now: int)
    requires Inv(cfg, q)
    requires id in q.jobs.items && q.jobs.items[id].state == Running
    requires q.jobs.items[id].attempts < q.jobs.items[id].maxRetries
    ensures Inv(cfg, Requeue(q, id, now))
  {
    var q' := Requeue(q, id, now);
    assert JobOk(cfg, id, q'.jobs.items[id]) && q'.jobs.items[id].attempts > 0;
    hide JobsOk, WaitingOk, LeasesOk, KeysOk, FairOrder, NoDup;
    RewriteKeepsJobs(cfg, q, q', id);
    RewriteKeepsKeys(q, q', id);
    EndOfLease(q, q', id);
    JoinWaiting(q, q', id);
    FairAfterOther(q, q', id);
  }

  lemma SettleKeepsInv(cfg: Config, q: Queue, id: string, to: JobState, result: Option<string>, error: Option<JobError>, now: int)
    requires Inv(cfg, q)
    requires id in q.jobs.items && q.jobs.items[id].state == Running
    requires IsTerminal(to) && to != ResourceLimit
    ensures Inv(cfg, Settle(q, id, to, result, error, now))
  {
    var q' := Settle(q, id, to, result, error, now);
    assert JobOk(cfg, id, q'.jobs.items[id]) && id !in q.waiting;
    hide JobsOk, WaitingOk, LeasesOk, KeysOk, FairOrder, NoDup;
    RewriteKeepsJobs(cfg, q, q', id);
    RewriteKeepsKeys(q, q', id);
    EndOfLease(q, q', id);
    LeaveWaiting(q, q', id);
    FairAfterOther(q, q', id);
  }

  lemma StartKeepsInv(cfg: Config, q: Queue, lease: Lease, now: int)
    requires Inv(cfg, q)
    requires q.waiting != [] && |q.leases.order| < cfg.maxRunningJobs
    ensures q.waiting[0] in q.jobs.items && q.jobs.items[q.waiting[0]].state == Queued
    ensures Inv(cfg, Start(q.(waiting := q.waiting[1..]), q.waiting[0], lease, now))
  {
    var id := q.waiting[0];
    assert id in q.waiting;
    WithoutHead(q.waiting);
    var q' := Start(q.(waiting := q.waiting[1..]), id, lease, now);
    assert JobOk(cfg, id, q'.jobs.items[id]);
    hide JobsOk, WaitingOk, LeasesOk, KeysOk, FairOrder, NoDup;
    RewriteKeepsJobs(cfg, q, q', id);
    RewriteKeepsKeys(q, q', id);
    StartOfLease(q, q', id, lease);
    LeaveWaiting(q, q', id);
    FairAfterLeaving(q, q', id);
  }

  lemma CancelKeepsInv(cfg: Config, q: Queue, id: string, reason: string, now: int)
    requires Inv(cfg, q)
    ensures Inv(cfg, Cancel(q, id, reason, now).queue)
  {
    var o := Cancel(q, id, reason, now);
    if o.result {
      assert JobOk(cfg, id, o.queue.jobs.items[id]);
      assert q.jobs.items[id].state == Running ==> id !in q.waiting;
      hide JobsOk, WaitingOk, LeasesOk, KeysOk, FairOrder, NoDup;
      RewriteKeepsJobs(cfg, q, o.queue, id);
      RewriteKeepsKeys(q, o.queue, id);
      EndOfLease(q, o.queue, id);
      LeaveWaiting(q, o.queue, id);
      FairAfterLeaving(q, o.queue, id);
    }
  }

  // ---------------------------------------------------------------- enqueue, and when a reused job id is harmless

  /** The ids an accepted submission may take: unused ones, and those of finished jobs without a key. */
  predicate IsReusable(q: Queue, id: string) {
    id in q.jobs.items ==> IsTerminal(q.jobs.items[id].state) && q.jobs.items[id].key.None?
  }

  lemma FairAfterAdmit(q: Queue, q': Queue, job: Job)
    requires FairOrder(q) && q.jobs.WellFormed()
    requires job.state == Queued && job.attempts == 0
    requires job.id !in q.jobs.items
    requires q'.jobs == q.jobs.Set(job.id, job) && q'.waiting == q.waiting + [job.id]
    ensures FairOrder(q')
  {
    NewOnesSame(q.jobs.items, q'.jobs.items, q.jobs.order);
    NewOnesAppend(q'.jobs.items, q.jobs.order, job.id);
    var tail := NewOnes(q.jobs.items, q.jobs.order);
    var front :| AllRetried(q.jobs.items, front) && q.waiting == front + tail;
    assert AllRetried(q'.jobs.items, front);
    assert q'.waiting == front + (tail + [job.id]);
  }

  lemma AdmitKeepsKeys(q: Queue, job: Job)
    requires KeysOk(q) && (job.key.Some? ==> job.key.value !in q.idempotency)
    requires IsReusable(q, job.id)
    ensures KeysOk(Admit(q, job))
  {}

  lemma AdmitKeepsJobs(cfg: Config, q: Queue, job: Job)
    requires JobsOk(cfg, q) && JobOk(cfg, job.id, job)
    ensures JobsOk(cfg, Admit(q, job))
  {
    SetKeepsWellFormed(q.jobs, job.id, job);
  }

  lemma AdmitKeepsWaiting(q: Queue, job: Job)
    requires WaitingOk(q) && job.state == Queued && job.id !in q.waiting
    ensures WaitingOk(Admit(q, job))
  {
    NoDupConcat(q.waiting, [job.id]);
    hide NoDup;
  }

  lemma AdmitKeepsConsistent(cfg: Config, q: Queue, data: JobData, freshId: string, now: int)
    requires Consistent(cfg, q)
    requires !IsDuplicate(q, data) && !IsFull(cfg, q)
    requires IsReusable(q, IdOf(data, freshId))
    ensures Consistent(cfg, Admit(q, NewJob(cfg, data, freshId, now)))
  {
    var job := NewJob(cfg, data, freshId, now);
    assert job.key.Some? ==> job.key.value !in q.idempotency;
    assert job.id !in q.waiting && job.id !in q.leases.items;
    hide KeysOk, JobsOk, WaitingOk, NoDup;
    AdmitKeepsKeys(q, job);
    AdmitKeepsJobs(cfg, q, job);
    AdmitKeepsWaiting(q, job);
  }

  lemma AdmitOfTakenIdBreaks(cfg: Config, q: Queue, data: JobData, freshId: string, now: int)
    requires Consistent(cfg, q)
    requires !IsDuplicate(q, data)
    requires !IsReusable(q, IdOf(data, freshId))
    ensures !Consistent(cfg, Admit(q, NewJob(cfg, data, freshId, now)))
  {
    var job := NewJob(cfg, data, freshId, now);
    var q' := Admit(q, job);
    var before := q.jobs.items[job.id];
    assert q'.jobs.items[job.id] == job;
    if before.state == Queued {
      assert job.id in q.waiting;
      var i :| 0 <= i < |q.waiting| && q.waiting[i] == job.id;
      assert q'.waiting[i] == q'.waiting[|q.waiting|];
      assert !NoDup(q'.waiting);
    } else if before.state == Running {
      assert job.id in q'.leases.items;
    } else {
      assert q'.idempotency[before.key.value] == job.id;
    }
  }

  /** Exactly which submissions leave the queue consistent: refused ones, duplicates, and those whose job id
      is unused or belongs to a finished job that carries no idempotency key. */
  lemma EnqueueKeepsConsistentIff(cfg: Config, q: Queue, data: JobData, freshId: string, now: int)
    requires Consistent(cfg, q)
    ensures Consistent(cfg, Enqueue(cfg, q, data, freshId, now).queue) <==>
              IsDuplicate(q, data) || IsFull(cfg, q) || IsReusable(q, IdOf(data, freshId))
  {
    if !IsDuplicate(q, data) && !IsFull(cfg, q) {
      if IsReusable(q, IdOf(data, freshId)) {
        AdmitKeepsConsistent(cfg, q, data, freshId, now);
      } else {
        AdmitOfTakenIdBreaks(cfg, q, data, freshId, now);
      }
    }
  }

  lemma EnqueueKeepsInv(cfg: Config, q: Queue, data: JobData, freshId: string, now: int)
    requires Inv(cfg, q)
    requires IsDuplicate(q, data) || IsFull(cfg, q) || IdOf(data, freshId) !in q.jobs.items
    ensures Inv(cfg, Enqueue(cfg, q, data, freshId, now).queue)
  {
    if !IsDuplicate(q, data) && !IsFull(cfg, q) {
      AdmitKeepsConsistent(cfg, q, data, freshId, now);
      var job := NewJob(cfg, data, freshId, now);
      FairAfterAdmit(q, Admit(q, job), job);
    }
  }

  // ---------------------------------------------------------------- the other calls

  lemma HeartbeatKeepsInv(cfg: Config, q: Queue, id: string, token: string, extension: Option<int>, now: int)
    requires Inv(cfg, q)
    ensures Inv(cfg, Heartbeat(cfg, q, id, token, extension, now).queue)
  {
    hide FairOrder;
    var o := Heartbeat(cfg, q, id, token, extension, now);
    if o.result {
      FairAfterOther(q, o.queue, id);
    }
  }

  lemma CompleteKeepsInv(cfg: Config, q: Queue, id: string, token: string, result: string, now: int)
    requires Inv(cfg, q)
    ensures Inv(cfg, Complete(q, id, token, result, now).queue)
    ensures Complete(q, id, token, result, now).result <==> Holds(q, id, token)
  {
    hide FairOrder, KeysOk, CapacityOk;
    if Holds(q, id, token) {
      SettleKeepsInv(cfg, q, id, Completed, Some(result), q.jobs.items[id].error, now);
    }
  }

  lemma FailKeepsInv(cfg: Config, q: Queue, id: string, token: string, error: JobError, now: int)
    requires Inv(cfg, q)
    ensures Inv(cfg, Fail(q, id, token, error, now).queue)
    ensures Fail(q, id, token, error, now).result <==> Holds(q, id, token)
  {
    hide FairOrder, KeysOk, CapacityOk;
    if Holds(q, id, token) {
      if q.jobs.items[id].attempts < q.jobs.items[id].maxRetries {
        RequeueKeepsInv(cfg, q, id, now);
      } else {
        SettleKeepsInv(cfg, q, id, Failed, q.jobs.items[id].result, Some(error), now);
      }
    }
  }

  lemma ReclaimOneKeepsInv(cfg: Config, q: Queue, id: string, now: int)
    requires Inv(cfg, q)
    ensures Inv(cfg, ReclaimOne(q, id, now).queue)
  {
    hide FairOrder, KeysOk, CapacityOk;
    if IsStale(q, id, now) {
      if q.jobs.items[id].attempts < q.jobs.items[id].maxRetries {
        RequeueKeepsInv(cfg, q, id, now);
      } else {
        SettleKeepsInv(cfg, q, id, TimedOut, q.jobs.items[id].result, Some(LEASE_EXPIRED), now);
      }
    }
  }

  lemma {:induction false} ReclaimAllKeepsInv(cfg: Config, q: Queue, ids: seq<string>, now: int)
    requires Inv(cfg, q)
    ensures Inv(cfg, ReclaimAll(q, ids, now).queue)
    decreases |ids|
  {
    hide Inv, ReclaimOne;
    if ids != [] {
      ReclaimOneKeepsInv(cfg, q, ids[0], now);
      ReclaimAllKeepsInv(cfg, ReclaimOne(q, ids[0], now).queue, ids[1..], now);
    }
  }

  /** Reclaiming drops exactly the expired leases; live ones stay as they were. */
  lemma {:induction false} ReclaimAllLeases(q: Queue, ids: seq<string>, now: int)
    ensures var after := ReclaimAll(q, ids, now).queue;
      && (forall id :: id in after.leases.items <==> id in q.leases.items && !(id in ids && IsStale(q, id, now)))
      && (forall id :: id in after.leases.items ==> after.leases.items[id] == q.leases.items[id])
    decreases |ids|
  {
    if ids != [] {
      var q1 := ReclaimOne(q, ids[0], now).queue;
      assert forall id :: id in q1.leases.items <==> id in q.leases.items && !(id == ids[0] && IsStale(q, id, now));
      ReclaimAllLeases(q1, ids[1..], now);
      forall id ensures id in ids <==> id == ids[0] || id in ids[1..] {}
    }
  }

  lemma ReclaimStaleKeepsInv(cfg: Config, q: Queue, now: int)
    requires Inv(cfg, q)
    ensures Inv(cfg, ReclaimStale(q, now).queue)
    ensures forall id :: id in ReclaimStale(q, now).queue.leases.items <==> id in q.leases.items && !IsStale(q, id, now)
    ensures forall id :: id in ReclaimStale(q, now).queue.leases.items ==>
              ReclaimStale(q, now).queue.leases.items[id] == q.leases.items[id]
  {
    ReclaimAllKeepsInv(cfg, q, q.leases.order, now);
    ReclaimAllLeases(q, q.leases.order, now);
  }

  lemma TakeWaitingKeepsInv(cfg: Config, s: Queue, worker: string, duration: Option<int>, token: string, now: int)
    requires Inv(cfg, s)
    ensures var o := TakeWaiting(cfg, s, worker, duration, token, now);
      && Inv(cfg, o.queue)
      && (o.result == None <==> |s.leases.order| >= cfg.maxRunningJobs || s.waiting == [])
      && (o.result == None ==> o.queue == s)
  {
    hide Inv, Start;
    if |s.leases.order| < cfg.maxRunningJobs && s.waiting != [] {
      var ms := OrDefault(duration, cfg.defaultLeaseMs);
      var lease := Lease(token, worker, now + ms, ms);
      StartKeepsInv(cfg, s, lease, now);
      TakenIsStarted(cfg, s, worker, duration, token, now);
      hide TakeWaiting;
    }
  }

  lemma TakenIsStarted(cfg: Config, s: Queue, worker: string, duration: Option<int>, token: string, now: int)
    requires |s.leases.order| < cfg.maxRunningJobs && s.waiting != []
    requires s.waiting[0] in s.jobs.items && s.jobs.items[s.waiting[0]].state == Queued
    ensures var o := TakeWaiting(cfg, s, worker, duration, token, now); var ms := OrDefault(duration, cfg.defaultLeaseMs);
      && o.queue == Start(s.(waiting := s.waiting[1..]), s.waiting[0], Lease(token, worker, now + ms, ms), now)
      && o.result.Some?
  {}

  /** A lease is refused only for want of capacity or of waiting jobs: the popped job is always found QUEUED. */
  lemma LeaseNextKeepsInv(cfg: Config, q: Queue, worker: string, duration: Option<int>, token: string, now: int)
    requires Inv(cfg, q)
    ensures var o := LeaseNext(cfg, q, worker, duration, token, now);
      var s := ReclaimStale(q, now).queue;
      && Inv(cfg, o.queue)
      && (o.result == None <==> |s.leases.order| >= cfg.maxRunningJobs || s.waiting == [])
      && (o.result == None ==> o.queue == s)
  {
    hide Inv, ReclaimStale, TakeWaiting;
    ReclaimStaleKeepsInv(cfg, q, now);
    TakeWaitingKeepsInv(cfg, ReclaimStale(q, now).queue, worker, duration, token, now);
  }

  lemma FirstSubmissionKeepsInv(cfg: Config, data: JobData, freshId: string, now: int)
    ensures Inv(cfg, Enqueue(cfg, EMPTY_QUEUE, data, freshId, now).queue)
  {
    EmptyInv(cfg);
    hide Inv, Enqueue;
    EnqueueKeepsInv(cfg, EMPTY_QUEUE, data, freshId, now);
  }

  /** A submission leased at once from an empty queue is running and nothing waits. */
  lemma LeasedAtOnce(cfg: Config, data: JobData, freshId: string, worker: string, token: string, now: int)
    requires cfg.maxQueueDepth >= 1 && cfg.maxRunningJobs >= 1 && KeyOf(data).Some?
    ensures var q1 := Enqueue(cfg, EMPTY_QUEUE, data, freshId, now).queue;
      var q2 := LeaseNext(cfg, q1, worker, None, token, now).queue; var id := IdOf(data, freshId);
      q2.waiting == [] && id in q2.jobs.items && q2.jobs.items[id].state == Running && q2.idempotency == map[KeyOf(data).value := id]
  {
    var q1 := Enqueue(cfg, EMPTY_QUEUE, data, freshId, now).queue;
    assert ReclaimStale(q1, now).queue == q1;
    hide ReclaimStale;
  }

  lemma RunningIdIsNotReusable(cfg: Config, q: Queue, data: JobData, freshId: string, now: int)
    requires Consistent(cfg, q) && cfg.maxQueueDepth >= 1 && q.waiting == []
    requires IdOf(data, freshId) in q.jobs.items && q.jobs.items[IdOf(data, freshId)].state == Running
    requires KeyOf(data).Some? && KeyOf(data).value !in q.idempotency
    ensures var o := Enqueue(cfg, q, data, freshId, now); o.result.Accepted? && !Consistent(cfg, o.queue)
  {
    hide Consistent;
    EnqueueKeepsConsistentIff(cfg, q, data, freshId, now);
  }

  /** A submission outside the guard, from an empty queue: the id of a running job is submitted again under another key. */
  lemma ReusedRunningIdBreaks(cfg: Config, id: string, first: string, second: string, worker: string, token: string, now: int)
    requires cfg.maxQueueDepth >= 1 && cfg.maxRunningJobs >= 1 && id != "" && first != "" && second != "" && first != second
    ensures var q1 := Enqueue(cfg, EMPTY_QUEUE, JobData(Some(id), Some(first), None, ""), "", now).queue;
      var q2 := LeaseNext(cfg, q1, worker, None, token, now).queue;
      var o := Enqueue(cfg, q2, JobData(Some(id), Some(second), None, ""), "", now);
      Inv(cfg, q2) && o.result.Accepted? && !Consistent(cfg, o.queue)
  {
    var data1, data2 := JobData(Some(id), Some(first), None, ""), JobData(Some(id), Some(second), None, "");
    var q1 := Enqueue(cfg, EMPTY_QUEUE, data1, "", now).queue;
    LeasedAtOnce(cfg, data1, "", worker, token, now);
    hide LeaseNext, Enqueue, ReclaimStale, Consistent, FairOrder;
    FirstSubmissionKeepsInv(cfg, data1, "", now);
    LeaseNextKeepsInv(cfg, q1, worker, None, token, now);
    var q2 := LeaseNext(cfg, q1, worker, None, token, now).queue;
    RunningIdIsNotReusable(cfg, q2, data2, "", now);
  }

  /** First leases happen in enqueue order: when a job is leased for the first time, every job
      submitted before it has been leased or cancelled already. */
  lemma FirstLeasesInOrder(cfg: Config, q: Queue, worker: string, duration: Option<int>, token: string, now: int, i: nat, j: nat)
    requires Inv(cfg, q)
    requires LeaseNext(cfg, q, worker, duration, token, now).result.Some?
    requires LeaseNext(cfg, q, worker, duration, token, now).result.value.job.attempts == 1
    requires var o := LeaseNext(cfg, q, worker, duration, token, now);
      i < j < |o.queue.jobs.order| && o.queue.jobs.order[j] == o.result.value.job.id
    ensures var o := LeaseNext(cfg, q, worker, duration, token, now);
      !IsNew(o.queue.jobs.items, o.queue.jobs.order[i])
  {
    LeaseNextKeepsInv(cfg, q, worker, duration, token, now);
    ReclaimStaleKeepsInv(cfg, q, now);
    var s := ReclaimStale(q, now).queue;
    var id := s.waiting[0];
    assert id in s.waiting;
    assert s.jobs.items[id].attempts == 0;
    var tail := NewOnes(s.jobs.items, s.jobs.order);
    var front :| AllRetried(s.jobs.items, front) && s.waiting == front + tail;
    assert s.waiting[0] !in front;
    NewOnesHead(s.jobs.items, s.jobs.order, i, j);
  }

  lemma {:induction false} NewOnesHead(jobs: map<string, Job>, order: seq<string>, i: nat, j: nat)
    requires i < j < |order| && NoDup(order)
    requires NewOnes(jobs, order) != [] && NewOnes(jobs, order)[0] == order[j]
    ensures !IsNew(jobs, order[i])
  {
    assert order[0] != order[j];
    if i > 0 {
      NewOnesHead(jobs, order[1..], i - 1, j - 1);
    }
  }

  // ---------------------------------------------------------------- statistics

  /** The six counts of `getStats` add up to the number of jobs, and say how long the line and the lease map are. */
  lemma StatsAddUp(cfg: Config, q: Queue)
    requires Consistent(cfg, q)
    ensures var s := StatsOf(q);
      && s.queued + s.running + s.completed + s.failed + s.cancelled + s.timedOut == s.totalJobs
      && s.totalJobs == |q.jobs.order|
      && s.queued == |q.waiting|
      && s.running == |q.leases.order|
  {
    StatesPartition(q);
    SizeOfElements(q.jobs.order, q.jobs.items.Keys);
    SizeOfElements(q.waiting, InState(q, Queued));
    SizeOfElements(q.leases.order, InState(q, Running));
  }

  /** How many of the jobs are in state `s`. */
  function CountIn(jobs: map<string, Job>, order: seq<string>, s: JobState): nat {
    if order == [] then 0
    else CountIn(jobs, order[1..], s) + if order[0] in jobs && jobs[order[0]].state == s then 1 else 0
  }

  function CountAmong(order: seq<string>, wanted: set<string>): nat {
    if order == [] then 0 else CountAmong(order[1..], wanted) + if order[0] in wanted then 1 else 0
  }

  lemma {:induction false} CountWithout(order: seq<string>, wanted: set<string>, gone: string)
    requires gone !in order
    ensures CountAmong(order, wanted - {gone}) == CountAmong(order, wanted)
    decreases |order|
  {
    if order != [] {
      var head := order[0];
      assert head in order;
      CountWithout(order[1..], wanted, gone);
    }
  }

  lemma {:induction false} CountIsSize(order: seq<string>, wanted: set<string>)
    requires NoDup(order) && forall id :: id in wanted ==> id in order
    ensures |wanted| == CountAmong(order, wanted)
    decreases |order|
  {
    if order == [] {
      if id :| id in wanted { assert false; }
    } else {
      var head, tail := order[0], order[1..];
      assert head !in tail && NoDup(tail) && order == [head] + tail;
      hide NoDup;
      CountIsSize(tail, wanted - {head});
      CountWithout(tail, wanted, head);
    }
  }

  lemma {:induction false} CountInIsAmong(q: Queue, order: seq<string>, s: JobState)
    ensures CountIn(q.jobs.items, order, s) == CountAmong(order, InState(q, s))
    decreases |order|
  {
    if order != [] { CountInIsAmong(q, order[1..], s); }
  }

  /** Each reported count is the number of jobs in that state, job by job. */
  lemma StatsAreCounts(cfg: Config, q: Queue)
    requires Consistent(cfg, q)
    ensures var r := StatsOf(q); var jobs, order := q.jobs.items, q.jobs.order;
      && r.totalJobs == |order| && r.queued == CountIn(jobs, order, Queued) && r.running == CountIn(jobs, order, Running)
      && r.completed == CountIn(jobs, order, Completed) && r.failed == CountIn(jobs, order, Failed)
      && r.cancelled == CountIn(jobs, order, Cancelled) && r.timedOut == CountIn(jobs, order, TimedOut)
  {
    StatsAddUp(cfg, q);
    assert NoDup(q.jobs.order) && forall id :: id in q.jobs.order <==> id in q.jobs.items;
    hide Consistent, NoDup;
    forall s: JobState ensures |InState(q, s)| == CountIn(q.jobs.items, q.jobs.order, s) {
      CountIsSize(q.jobs.order, InState(q, s));
      CountInIsAmong(q, q.jobs.order, s);
    }
    hide CountIn, InState;
  }

  lemma StatesDiffer(q: Queue, s: JobState, t: JobState)
    requires s != t
    ensures InState(q, s) !! InState(q, t)
  {}

  lemma StatesCover(q: Queue)
    requires forall id :: id in q.jobs.items ==> q.jobs.items[id].state != ResourceLimit
    ensures q.jobs.items.Keys == InState(q, Queued) + InState(q, Running) + InState(q, Completed)
                                 + InState(q, Failed) + InState(q, Cancelled) + InState(q, TimedOut)
  {}

  lemma StatesPartition(q: Queue)
    requires forall id :: id in q.jobs.items ==> q.jobs.items[id].state != ResourceLimit
    ensures var s := StatsOf(q);
      s.queued + s.running + s.completed + s.failed + s.cancelled + s.timedOut == s.totalJobs
  {
    hide InState;
    forall s, t | s != t ensures InState(q, s) !! InState(q, t) { StatesDiffer(q, s, t); }
    StatesCover(q);
    DisjointSizes(InState(q, Queued), InState(q, Running), InState(q, Completed),
                  InState(q, Failed), InState(q, Cancelled), InState(q, TimedOut));
  }

  lemma DisjointSizes(a: set<string>, b: set<string>, c: set<string>, d: set<string>, e: set<string>, f: set<string>)
    requires a !! b && (a + b) !! c && (a + b + c) !! d && (a + b + c + d) !! e && (a + b + c + d + e) !! f
    ensures |a + b + c + d + e + f| == |a| + |b| + |c| + |d| + |e| + |f|
  {}

  lemma {:induction false} SizeOfElements(s: seq<string>, elements: set<string>)
    requires NoDup(s)
    requires forall x :: x in s <==> x in elements
    ensures |elements| == |s|
  {
    if s == [] {
      assert elements == {};
    } else {
      assert s[0] !in s[1..];
      assert elements == {s[0]} + (elements - {s[0]});
      forall x ensures x in s[1..] <==> x in elements - {s[0]} {
        if x in elements - {s[0]} { assert x in s; }
      }
      SizeOfElements(s[1..], elements - {s[0]});
    }
  }
}

/** The leased job queue of packages/queue/src/in-memory-queue.js as values: each queue method is
    a function from the queue before the call to the queue after it, its result and the job
    state changes it made. `InMemoryQueue` proves the mutable class equal to these functions. */
module QueueModel {
  import opened Collections
  import opened JobStates

  datatype Config = Config(maxQueueDepth: int, maxRunningJobs: int, defaultLeaseMs: int, maxRetries: int)

  datatype JobError = JobError(code: string, message: string)

  datatype Job = Job(
    id: string,
    key: Option<string>,
    principal: string,
    payload: string,
    maxRetries: int,
    createdAt: int,
    state: JobState,
    attempts: nat,
    updatedAt: int,
    result: Option<string>,
    error: Option<JobError>)

  datatype Lease = Lease(token: string, worker: string, expiresAt: int, durationMs: int)

  datatype Queue = Queue(
    jobs: OrderedMap<string, Job>,
    idempotency: map<string, string>,
    waiting: seq<string>,
    leases: OrderedMap<string, Lease>)

  /** One job state change made by a call. */
  datatype Change = Change(id: string, from: JobState, to: JobState)

  datatype Outcome<R> = Outcome(queue: Queue, result: R, changes: seq<Change>)

  const EMPTY_QUEUE := Queue(OrderedMap([], map[]), map[], [], OrderedMap([], map[]))

  /** `x || d` on numbers: a missing or zero option takes the default. */
  function OrDefault(x: Option<int>, d: int): int {
    if x.None? || x.value == 0 then d else x.value
  }

  function MakeConfig(depth: Option<int>, running: Option<int>, leaseMs: Option<int>, retries: Option<int>): Config {
    Config(OrDefault(depth, 100), OrDefault(running, 10), OrDefault(leaseMs, 30000),
           if retries.Some? then retries.value else 2)
  }

  // ---------------------------------------------------------------- enqueue

  datatype JobData = JobData(jobId: Option<string>, key: Option<string>, principal: Option<string>, payload: string)

  predicate Given(s: Option<string>) {
    s.Some? && s.value != ""
  }

  function KeyOf(data: JobData): Option<string> {
    if Given(data.key) then data.key else if Given(data.jobId) then data.jobId else None
  }

  /** The id of the new job: the caller's, or a random one (`freshId`). */
  function IdOf(data: JobData, freshId: string): string {
    if Given(data.jobId) then data.jobId.value else freshId
  }

  function NewJob(cfg: Config, data: JobData, freshId: string, now: int): Job {
    Job(IdOf(data, freshId), KeyOf(data),
        if Given(data.principal) then data.principal.value else "anonymous",
        data.payload, cfg.maxRetries, now, Queued, 0, now, None, None)
  }

  datatype EnqueueResult = Accepted(job: Job) | Duplicate(job: Job) | BackpressureExceeded

  predicate IsDuplicate(q: Queue, data: JobData) {
    && KeyOf(data).Some?
    && KeyOf(data).value in q.idempotency
    && q.idempotency[KeyOf(data).value] in q.jobs.items
  }

  predicate IsFull(cfg: Config, q: Queue) {
    |q.waiting| >= cfg.maxQueueDepth
  }

  function Admit(q: Queue, job: Job): Queue {
    Queue(q.jobs.Set(job.id, job),
          if job.key.Some? then q.idempotency[job.key.value := job.id] else q.idempotency,
          q.waiting + [job.id],
          q.leases)
  }

  function Enqueue(cfg: Config, q: Queue, data: JobData, freshId: string, now: int): Outcome<EnqueueResult> {
    if IsDuplicate(q, data) then
      Outcome(q, Duplicate(q.jobs.items[q.idempotency[KeyOf(data).value]]), [])
    else if IsFull(cfg, q) then
      Outcome(q, BackpressureExceeded, [])
    else
      var job := NewJob(cfg, data, freshId, now);
      Outcome(Admit(q, job), Accepted(job), [])
  }

  // ---------------------------------------------------------------- reclaim

  /** A running job goes back to the front of the waiting line and loses its lease. */
  function Requeue(q: Queue, id: string, now: int): Queue
    requires id in q.jobs.items
  {
    q.(jobs := q.jobs.Set(id, q.jobs.items[id].(state := Queued, updatedAt := now)),
       leases := q.leases.Delete(id),
       waiting := [id] + q.waiting)
  }

  /** A job reaches a terminal state and loses its lease. */
  function Settle(q: Queue, id: string, to: JobState, result: Option<string>, error: Option<JobError>, now: int): Queue
    requires id in q.jobs.items
  {
    q.(jobs := q.jobs.Set(id, q.jobs.items[id].(state := to, result := result, error := error, updatedAt := now)),
       leases := q.leases.Delete(id))
  }

  const LEASE_EXPIRED := JobError("LEASE_EXPIRED", "Worker lease expired and retry limit reached")

  predicate IsStale(q: Queue, id: string, now: int) {
    id in q.leases.items && now > q.leases.items[id].expiresAt
  }

  function ReclaimOne(q: Queue, id: string, now: int): Outcome<()> {
    if !IsStale(q, id, now) then Outcome(q, (), [])
    else if id !in q.jobs.items || q.jobs.items[id].state != Running then
      Outcome(q.(leases := q.leases.Delete(id)), (), [])
    else
      var job := q.jobs.items[id];
      if job.attempts < job.maxRetries then
        Outcome(Requeue(q, id, now), (), [Change(id, Running, Queued)])
      else
        Outcome(Settle(q, id, TimedOut, job.result, Some(LEASE_EXPIRED), now), (), [Change(id, Running, TimedOut)])
  }

  /** The loop over the leases, in the order of the lease map when it started. */
  function ReclaimAll(q: Queue, ids: seq<string>, now: int): Outcome<()>
    decreases |ids|
  {
    if ids == [] then Outcome(q, (), [])
    else
      var first := ReclaimOne(q, ids[0], now);
      var rest := ReclaimAll(first.queue, ids[1..], now);
      Outcome(rest.queue, (), first.changes + rest.changes)
  }

  function ReclaimStale(q: Queue, now: int): Outcome<()> {
    ReclaimAll(q, q.leases.order, now)
  }

  // ---------------------------------------------------------------- lease

  datatype Leased = Leased(job: Job, token: string, expiresAt: int)

  function Start(q: Queue, id: string, lease: Lease, now: int): Queue
    requires id in q.jobs.items
  {
    var job := q.jobs.items[id];
    q.(jobs := q.jobs.Set(id, job.(state := Running, attempts := job.attempts + 1, updatedAt := now)),
       leases := q.leases.Set(id, lease))
  }

  /** The part of `leaseNextJob` after the reclaim. */
  function TakeWaiting(cfg: Config, q: Queue, worker: string, duration: Option<int>, token: string, now: int)
    : Outcome<Option<Leased>>
  {
    if |q.leases.order| >= cfg.maxRunningJobs || q.waiting == [] then
      Outcome(q, None, [])
    else
      var id := q.waiting[0];
      var popped := q.(waiting := q.waiting[1..]);
      if id !in q.jobs.items || q.jobs.items[id].state != Queued then
        Outcome(popped, None, [])
      else
        var ms := OrDefault(duration, cfg.defaultLeaseMs);
        var started := Start(popped, id, Lease(token, worker, now + ms, ms), now);
        Outcome(started, Some(Leased(started.jobs.items[id], token, now + ms)), [Change(id, Queued, Running)])
  }

  function LeaseNext(cfg: Config, q: Queue, worker: string, duration: Option<int>, token: string, now: int)
    : Outcome<Option<Leased>>
  {
    var r := ReclaimStale(q, now);
    var o := TakeWaiting(cfg, r.queue, worker, duration, token, now);
    Outcome(o.queue, o.result, r.changes + o.changes)
  }

  // ---------------------------------------------------------------- lease holders' calls

  predicate Holds(q: Queue, id: string, token: string) {
    id in q.leases.items && q.leases.items[id].token == token
  }

  function Heartbeat(cfg: Config, q: Queue, id: string, token: string, extension: Option<int>, now: int): Outcome<bool> {
    if !Holds(q, id, token) || now > q.leases.items[id].expiresAt then Outcome(q, false, [])
    else
      var lease := q.leases.items[id];
      var ms := OrDefault(extension, OrDefault(Some(lease.durationMs), cfg.defaultLeaseMs));
      var extended := q.(leases := q.leases.Set(id, lease.(expiresAt := now + ms)));
      if id in q.jobs.items then
        Outcome(extended.(jobs := q.jobs.Set(id, q.jobs.items[id].(updatedAt := now))), true, [])
      else
        Outcome(extended, true, [])
  }

  function Complete(q: Queue, id: string, token: string, result: string, now: int): Outcome<bool> {
    if !Holds(q, id, token) || id !in q.jobs.items || !IsValidTransition(q.jobs.items[id].state, Completed) then
      Outcome(q, false, [])
    else
      var job := q.jobs.items[id];
      Outcome(Settle(q, id, Completed, Some(result), job.error, now), true, [Change(id, job.state, Completed)])
  }

  function Fail(q: Queue, id: string, token: string, error: JobError, now: int): Outcome<bool> {
    if !Holds(q, id, token) || id !in q.jobs.items then Outcome(q, false, [])
    else
      var job := q.jobs.items[id];
      if job.attempts < job.maxRetries then
        Outcome(Requeue(q, id, now), true, [Change(id, job.state, Queued)])
      else
        Outcome(Settle(q, id, Failed, job.result, Some(error), now), true, [Change(id, job.state, Failed)])
  }

  function Cancel(q: Queue, id: string, reason: string, now: int): Outcome<bool> {
    if id !in q.jobs.items || IsTerminal(q.jobs.items[id].state) then Outcome(q, false, [])
    else
      var job := q.jobs.items[id];
      var settled := Settle(q, id, Cancelled, job.result, Some(JobError("CANCELLED", reason)), now);
      Outcome(settled.(waiting := Without(q.waiting, id)), true, [Change(id, job.state, Cancelled)])
  }

  // ---------------------------------------------------------------- statistics

  datatype Stats = Stats(totalJobs: nat, queued: nat, running: nat, completed: nat, failed: nat, cancelled: nat, timedOut: nat)

  function InState(q: Queue, s: JobState): set<string> {
    set id | id in q.jobs.items && q.jobs.items[id].state == s
  }

  function StatsOf(q: Queue): Stats {
    Stats(|q.jobs.items|, |InState(q, Queued)|, |InState(q, Running)|, |InState(q, Completed)|,
          |InState(q, Failed)|, |InState(q, Cancelled)|, |InState(q, TimedOut)|)
  }

  function GetStats(q: Queue, now: int): Outcome<Stats> {
    var r := ReclaimStale(q, now);
    Outcome(r.queue, StatsOf(r.queue), r.changes)
  }
}

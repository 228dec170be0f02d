/** The `InMemoryJobQueue` class of packages/queue/src/in-memory-queue.js: job and lease records
    updated in place. Every method is proved equal to its function in `QueueModel`. */
module InMemoryQueue {
  import opened Collections
  import opened JobStates
  import opened QueueModel
  import opened QueueInvariant

  class JobRecord {
    const id: string
    const key: Option<string>
    const principal: string
    const payload: string
    const maxRetries: int
    const createdAt: int
    var state: JobState
    var attempts: nat
    var updatedAt: int
    var result: Option<string>
    var error: Option<JobError>

    function Value(): Job
      reads this
    {
      Job(id, key, principal, payload, maxRetries, createdAt, state, attempts, updatedAt, result, error)
    }

    constructor (v: Job)
      ensures Value() == v
    {
      id, key, principal, payload, maxRetries, createdAt := v.id, v.key, v.principal, v.payload, v.maxRetries, v.createdAt;
      state, attempts, updatedAt, result, error := v.state, v.attempts, v.updatedAt, v.result, v.error;
    }
  }

  class LeaseRecord {
    const token: string
    const worker: string
    const durationMs: int
    var expiresAt: int

    function Value(): Lease
      reads this
    {
      Lease(token, worker, expiresAt, durationMs)
    }

    constructor (v: Lease)
      ensures Value() == v
    {
      token, worker, durationMs, expiresAt := v.token, v.worker, v.durationMs, v.expiresAt;
    }
  }

  ghost predicate Distinct<V>(m: map<string, V>) {
    forall a, b :: a in m && b in m && a != b ==> m[a] != m[b]
  }

  class InMemoryJobQueue {
    const cfg: Config
    var jobs: OrderedMap<string, JobRecord>
    var idempotency: map<string, string>
    var waiting: seq<string>
    var leases: OrderedMap<string, LeaseRecord>
    ghost var Repr: set<object>

    /** Different keys have different records, and `Repr` holds them all. */
    ghost predicate Valid()
      reads this`jobs, this`leases, this`Repr
    {
      && Distinct(jobs.items)
      && Distinct(leases.items)
      && (forall id :: id in jobs.items ==> jobs.items[id] in Repr)
      && (forall id :: id in leases.items ==> leases.items[id] in Repr)
      && this !in Repr
    }

    ghost function JobValues(): map<string, Job>
      requires Valid()
      reads this`jobs, this`leases, this`Repr, Repr
    {
      map id | id in jobs.items :: jobs.items[id].Value()
    }

    ghost function LeaseValues(): map<string, Lease>
      requires Valid()
      reads this`jobs, this`leases, this`Repr, Repr
    {
      map id | id in leases.items :: leases.items[id].Value()
    }

    ghost function Value(): Queue
      requires Valid()
      reads this, Repr
    {
      Queue(OrderedMap(jobs.order, JobValues()), idempotency, waiting, OrderedMap(leases.order, LeaseValues()))
    }

    /** What the records of one id say about the queue's value. */
    lemma Lookup(id: string)
      requires Valid()
      ensures id in jobs.items <==> id in Value().jobs.items
      ensures id in jobs.items ==> jobs.items[id] in Repr && jobs.items[id].Value() == Value().jobs.items[id]
      ensures id in jobs.items ==> jobs.items[id].state == Value().jobs.items[id].state
      ensures id in leases.items <==> id in Value().leases.items
      ensures id in leases.items ==> leases.items[id] in Repr && leases.items[id].Value() == Value().leases.items[id]
    {}

    lemma SameIds()
      requires Valid()
      ensures jobs.items.Keys == Value().jobs.items.Keys && |jobs.items| == |Value().jobs.items|
    {
      assert |jobs.items| == |jobs.items.Keys| && |Value().jobs.items| == |Value().jobs.items.Keys|;
    }

    constructor (maxQueueDepth: Option<int>, maxRunningJobs: Option<int>, defaultLeaseMs: Option<int>, maxRetries: Option<int>)
      ensures Valid() && Repr == {}
      ensures cfg.maxQueueDepth == if maxQueueDepth.Some? && maxQueueDepth.value != 0 then maxQueueDepth.value else 100
      ensures cfg.maxRunningJobs == if maxRunningJobs.Some? && maxRunningJobs.value != 0 then maxRunningJobs.value else 10
      ensures cfg.defaultLeaseMs == if defaultLeaseMs.Some? && defaultLeaseMs.value != 0 then defaultLeaseMs.value else 30000
      ensures cfg.maxRetries == if maxRetries.Some? then maxRetries.value else 2
      ensures Value() == EMPTY_QUEUE && Inv(cfg, Value())
    {
      cfg := MakeConfig(maxQueueDepth, maxRunningJobs, defaultLeaseMs, maxRetries);
      jobs, idempotency, waiting, leases := OrderedMap([], map[]), map[], [], OrderedMap([], map[]);
      Repr := {};
      new;
      assert Value() == EMPTY_QUEUE;
      EmptyInv(cfg);
    }

    /** Assignments to the fields of one job record. */
    method UpdateJob(id: string, state: JobState, attempts: nat, result: Option<string>, error: Option<JobError>, now: int)
      requires Valid() && id in jobs.items
      modifies jobs.items[id]
      ensures Valid() && Repr == old(Repr)
      ensures var job := old(Value()).jobs.items[id].(
          state := state, attempts := attempts, result := result, error := error, updatedAt := now);
        Value() == old(Value()).(jobs := old(Value()).jobs.Set(id, job))
    {
      var job := jobs.items[id];
      job.state, job.attempts, job.result, job.error, job.updatedAt := state, attempts, result, error, now;
      assert forall x :: x in jobs.items && x != id ==> jobs.items[x] != job;
      assert JobValues() == old(JobValues())[id := job.Value()];
      assert LeaseValues() == old(LeaseValues());
      hide Distinct;
    }

    /** `this.leases.delete(id)` */
    method DropLease(id: string)
      requires Valid()
      modifies this`leases
      ensures Valid() && Repr == old(Repr)
      ensures Value() == old(Value()).(leases := old(Value()).leases.Delete(id))
    {
      leases := leases.Delete(id);
      assert LeaseValues() == old(LeaseValues()) - {id};
      assert JobValues() == old(JobValues());
      assert leases.order == old(Value()).leases.Delete(id).order;
    }

    method Enqueue(data: JobData, freshId: string, now: int) returns (r: EnqueueResult)
      requires Valid()
      modifies this
      ensures Valid() && fresh(Repr - old(Repr))
      ensures var o := QueueModel.Enqueue(cfg, old(Value()), data, freshId, now);
        Value() == o.queue && r == o.result
    {
      hide Valid, JobValues, LeaseValues;
      var key := KeyOf(data);
      if key.Some? && key.value in idempotency {
        var existing := idempotency[key.value];
        Lookup(existing);
        if existing in jobs.items {
          return Duplicate(jobs.items[existing].Value());
        }
      }
      if |waiting| >= cfg.maxQueueDepth {
        return BackpressureExceeded;
      }
      var job := NewJob(cfg, data, freshId, now);
      AddJob(job);
      if key.Some? {
        idempotency := idempotency[key.value := job.id];
      }
      waiting := waiting + [job.id];
      return Accepted(job);
    }

    /** `this.jobs.set(job.jobId, job)` */
    method AddJob(value: Job)
      requires Valid()
      modifies this`jobs, this`Repr
      ensures Valid() && fresh(Repr - old(Repr))
      ensures Value() == old(Value()).(jobs := old(Value()).jobs.Set(value.id, value))
    {
      var job := new JobRecord(value);
      Repr := Repr + {job};
      jobs := jobs.Set(value.id, job);
      assert JobValues() == old(JobValues())[value.id := value];
      assert LeaseValues() == old(LeaseValues());
    }

    method ReclaimStaleLeases(now: int)
      requires Valid()
      modifies this, Repr
      ensures Valid() && Repr == old(Repr) && jobs == old(jobs)
      ensures Value() == ReclaimStale(old(Value()), now).queue
    {
      var ids := leases.order;
      var i := 0;
      while i < |ids|
        invariant 0 <= i <= |ids|
        invariant Valid() && Repr == old(Repr) && jobs == old(jobs)
        invariant ReclaimAll(Value(), ids[i..], now).queue == ReclaimAll(old(Value()), ids, now).queue
      {
        assert ids[i..][0] == ids[i] && ids[i..][1..] == ids[i + 1..];
        ReclaimLease(ids[i], now);
        i := i + 1;
      }
    }

    /** The body of the reclaim loop. */
    method ReclaimLease(id: string, now: int)
      requires Valid()
      modifies this, Repr
      ensures Valid() && Repr == old(Repr) && jobs == old(jobs)
      ensures Value() == ReclaimOne(old(Value()), id, now).queue
    {
      hide Valid, JobValues, LeaseValues;
      Lookup(id);
      if id !in leases.items || now <= leases.items[id].expiresAt {
        return;
      }
      DropLease(id);
      if id in jobs.items && jobs.items[id].state == Running {
        var job := jobs.items[id];
        if job.attempts < job.maxRetries {
          UpdateJob(id, Queued, job.attempts, job.result, job.error, now);
          waiting := [id] + waiting;
        } else {
          UpdateJob(id, TimedOut, job.attempts, job.result, Some(LEASE_EXPIRED), now);
        }
      }
    }

    method LeaseNextJob(worker: string, duration: Option<int>, token: string, now: int) returns (r: Option<Leased>)
      requires Valid()
      modifies this, Repr
      ensures Valid() && fresh(Repr - old(Repr))
      ensures var o := LeaseNext(cfg, old(Value()), worker, duration, token, now);
        Value() == o.queue && r == o.result
    {
      hide ReclaimStale, TakeWaiting, Valid, Value;
      ReclaimStaleLeases(now);
      r := TakeWaitingJob(worker, duration, token, now);
    }

    /** `this.waitingQueue.shift()` */
    method ShiftWaiting() returns (id: string)
      requires Valid() && waiting != []
      modifies this`waiting
      ensures Valid()
      ensures id == old(waiting[0])
      ensures Value() == old(Value()).(waiting := old(waiting[1..]))
    {
      id := waiting[0];
      waiting := waiting[1..];
    }

    /** `leaseNextJob` after the reclaim. */
    method TakeWaitingJob(worker: string, duration: Option<int>, token: string, now: int) returns (r: Option<Leased>)
      requires Valid()
      modifies this, Repr
      ensures Valid() && fresh(Repr - old(Repr))
      ensures var o := TakeWaiting(cfg, old(Value()), worker, duration, token, now);
        Value() == o.queue && r == o.result
    {
      hide Valid, JobValues, LeaseValues;
      if |leases.order| >= cfg.maxRunningJobs {
        return None;
      }
      if waiting == [] {
        return None;
      }
      var id := ShiftWaiting();
      Lookup(id);
      if id !in jobs.items || jobs.items[id].state != Queued {
        return None;
      }
      var job := jobs.items[id];
      var ms := OrDefault(duration, cfg.defaultLeaseMs);
      var expiresAt := now + ms;
      UpdateJob(id, Running, job.attempts + 1, job.result, job.error, now);
      Lookup(id);
      AddLease(id, Lease(token, worker, expiresAt, ms));
      return Some(Leased(job.Value(), token, expiresAt));
    }

    /** `this.leases.set(id, lease)` */
    method AddLease(id: string, value: Lease)
      requires Valid()
      modifies this`leases, this`Repr
      ensures Valid() && fresh(Repr - old(Repr)) && jobs == old(jobs)
      ensures Value() == old(Value()).(leases := old(Value()).leases.Set(id, value))
    {
      var lease := new LeaseRecord(value);
      Repr := Repr + {lease};
      leases := leases.Set(id, lease);
      assert LeaseValues() == old(LeaseValues())[id := value];
      assert JobValues() == old(JobValues());
    }

    method Heartbeat(id: string, token: string, extension: Option<int>, now: int) returns (ok: bool)
      requires Valid()
      modifies Repr
      ensures Valid() && Repr == old(Repr)
      ensures var o := QueueModel.Heartbeat(cfg, old(Value()), id, token, extension, now);
        Value() == o.queue && ok == o.result
    {
      hide Valid, JobValues, LeaseValues;
      Lookup(id);
      if id !in leases.items || leases.items[id].token != token {
        return false;
      }
      var lease := leases.items[id];
      if now > lease.expiresAt {
        return false;
      }
      ProlongLease(id, now + OrDefault(extension, OrDefault(Some(lease.durationMs), cfg.defaultLeaseMs)));
      if id in jobs.items {
        var job := jobs.items[id];
        Lookup(id);
        UpdateJob(id, job.state, job.attempts, job.result, job.error, now);
      }
      return true;
    }

    /** `lease.expiresAt = expiresAt` */
    method ProlongLease(id: string, expiresAt: int)
      requires Valid() && id in leases.items
      modifies leases.items[id]
      ensures Valid() && Repr == old(Repr)
      ensures var lease := old(Value()).leases.items[id].(expiresAt := expiresAt);
        Value() == old(Value()).(leases := old(Value()).leases.Set(id, lease))
    {
      var lease := leases.items[id];
      lease.expiresAt := expiresAt;
      assert LeaseValues() == old(LeaseValues())[id := lease.Value()];
      assert JobValues() == old(JobValues());
    }

    method CompleteJob(id: string, token: string, result: string, now: int) returns (ok: bool)
      requires Valid()
      modifies this`leases, Repr
      ensures Valid() && Repr == old(Repr)
      ensures var o := Complete(old(Value()), id, token, result, now);
        Value() == o.queue && ok == o.result
    {
      hide Valid, JobValues, LeaseValues;
      Lookup(id);
      if id !in leases.items || leases.items[id].token != token {
        return false;
      }
      if id !in jobs.items || !IsValidTransition(jobs.items[id].state, Completed) {
        return false;
      }
      var job := jobs.items[id];
      UpdateJob(id, Completed, job.attempts, Some(result), job.error, now);
      DropLease(id);
      return true;
    }

    method FailJob(id: string, token: string, error: JobError, now: int) returns (ok: bool)
      requires Valid()
      modifies this`leases, this`waiting, Repr
      ensures Valid() && Repr == old(Repr)
      ensures var o := Fail(old(Value()), id, token, error, now);
        Value() == o.queue && ok == o.result
    {
      hide Valid, JobValues, LeaseValues;
      Lookup(id);
      if id !in leases.items || leases.items[id].token != token {
        return false;
      }
      if id !in jobs.items {
        return false;
      }
      var job := jobs.items[id];
      if job.attempts < job.maxRetries {
        UpdateJob(id, Queued, job.attempts, job.result, job.error, now);
        DropLease(id);
        waiting := [id] + waiting;
        return true;
      }
      UpdateJob(id, Failed, job.attempts, job.result, Some(error), now);
      DropLease(id);
      return true;
    }

    method CancelJob(id: string, reason: string, now: int) returns (ok: bool)
      requires Valid()
      modifies this`leases, this`waiting, Repr
      ensures Valid() && Repr == old(Repr)
      ensures var o := Cancel(old(Value()), id, reason, now);
        Value() == o.queue && ok == o.result
    {
      hide Valid, JobValues, LeaseValues;
      Lookup(id);
      if id !in jobs.items || IsTerminal(jobs.items[id].state) {
        return false;
      }
      var job := jobs.items[id];
      UpdateJob(id, Cancelled, job.attempts, job.result, Some(JobError("CANCELLED", reason)), now);
      DropLease(id);
      waiting := Without(waiting, id);
      return true;
    }

    method GetStats(now: int) returns (s: Stats)
      requires Valid()
      modifies this, Repr
      ensures Valid() && Repr == old(Repr)
      ensures var o := QueueModel.GetStats(old(Value()), now);
        Value() == o.queue && s == o.result
    {
      ReclaimStaleLeases(now);
      hide ReclaimStale;
      s := CountJobs();
    }

    /** The counting loop; the counts do not depend on the order of the jobs. */
    method CountJobs() returns (s: Stats)
      requires Valid()
      ensures s == StatsOf(Value())
    {
      hide *;
      ghost var q := Value();
      SameIds();
      TallyEnds(q);
      s := Stats(|jobs.items|, 0, 0, 0, 0, 0, 0);
      var rest := jobs.items.Keys;
      while rest != {}
        invariant rest <= jobs.items.Keys
        invariant s == Tally(q, rest)
        decreases |rest|
      {
        var id :| id in rest;
        Lookup(id);
        TallyStep(q, rest, id);
        s := CountedIn(s, jobs.items[id].state);
        rest := rest - {id};
      }
    }
  }

  /** The `switch` of the counting loop. */
  function CountedIn(t: Stats, s: JobState): Stats {
    match s
    case Queued => t.(queued := t.queued + 1)
    case Running => t.(running := t.running + 1)
    case Completed => t.(completed := t.completed + 1)
    case Failed => t.(failed := t.failed + 1)
    case Cancelled => t.(cancelled := t.cancelled + 1)
    case TimedOut => t.(timedOut := t.timedOut + 1)
    case ResourceLimit => t
  }

  /** The statistics over the jobs outside `rest`. */
  ghost function Tally(q: Queue, rest: set<string>): Stats {
    Stats(|q.jobs.items|, |InState(q, Queued) - rest|, |InState(q, Running) - rest|, |InState(q, Completed) - rest|,
          |InState(q, Failed) - rest|, |InState(q, Cancelled) - rest|, |InState(q, TimedOut) - rest|)
  }

  lemma CountStep(q: Queue, rest: set<string>, id: string, s: JobState)
    requires id in rest && rest <= q.jobs.items.Keys
    ensures |InState(q, s) - (rest - {id})| == |InState(q, s) - rest| + if q.jobs.items[id].state == s then 1 else 0
  {
    if q.jobs.items[id].state == s {
      assert InState(q, s) - (rest - {id}) == (InState(q, s) - rest) + {id};
    } else {
      assert InState(q, s) - (rest - {id}) == InState(q, s) - rest;
    }
  }

  lemma TallyStep(q: Queue, rest: set<string>, id: string)
    requires id in rest && rest <= q.jobs.items.Keys
    ensures Tally(q, rest - {id}) == CountedIn(Tally(q, rest), q.jobs.items[id].state)
  {
    CountStep(q, rest, id, Queued);
    CountStep(q, rest, id, Running);
    CountStep(q, rest, id, Completed);
    CountStep(q, rest, id, Failed);
    CountStep(q, rest, id, Cancelled);
    CountStep(q, rest, id, TimedOut);
    hide InState;
  }

  lemma TallyEnds(q: Queue)
    ensures Tally(q, {}) == StatsOf(q)
    ensures Tally(q, q.jobs.items.Keys) == Stats(|q.jobs.items|, 0, 0, 0, 0, 0, 0)
  {
    forall s ensures InState(q, s) - {} == InState(q, s) && InState(q, s) - q.jobs.items.Keys == {} {}
  }
}

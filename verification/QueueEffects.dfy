/** What each call of the queue does, field by field: answers, records, waiting line, leases and keys. */
module QueueEffects {
  import opened Collections
  import opened JobStates
  import opened QueueModel
  import opened QueueInvariant

  // ---------------------------------------------------------------- expired leases

  predicate HasExpired(q: Queue, id: string, now: int) {
    id in q.leases.items && q.leases.items[id].expiresAt < now
  }

  /** What a job is after its lease has expired: retried if it has attempts left, and timed out otherwise. */
  ghost predicate IsReclaimed(before: Job, after: Job, now: int) {
    && after.id == before.id && after.key == before.key && after.principal == before.principal && after.payload == before.payload
    && after.maxRetries == before.maxRetries && after.createdAt == before.createdAt
    && after.attempts == before.attempts && after.result == before.result && after.updatedAt == now
    && if before.attempts < before.maxRetries then after.state == Queued && after.error == before.error
       else after.state == TimedOut && after.error == Some(JobError("LEASE_EXPIRED", "Worker lease expired and retry limit reached"))
  }

  predicate IsRetried(q: Queue, id: string, now: int) {
    HasExpired(q, id, now) && id in q.jobs.items && q.jobs.items[id].attempts < q.jobs.items[id].maxRetries
  }

  /** The retried ones among `ids`, last first. */
  function RetriedBackwards(q: Queue, ids: seq<string>, now: int): seq<string> {
    if ids == [] then []
    else RetriedBackwards(q, ids[1..], now) + if IsRetried(q, ids[0], now) then [ids[0]] else []
  }

  /** The ids whose lease has not expired, in order. */
  function LiveOnes(q: Queue, ids: seq<string>, now: int): seq<string> {
    if ids == [] then [] else (if HasExpired(q, ids[0], now) then [] else [ids[0]]) + LiveOnes(q, ids[1..], now)
  }

  /** What reclaiming the leases of `ids` does to the records. */
  ghost predicate RecordsReclaimed(q: Queue, q': Queue, ids: seq<string>, now: int) {
    && q'.idempotency == q.idempotency && q'.jobs.order == q.jobs.order
    && (forall id :: id in q'.jobs.items <==> id in q.jobs.items)
    && (forall id :: id in q.jobs.items ==>
          if id in ids && HasExpired(q, id, now) then IsReclaimed(q.jobs.items[id], q'.jobs.items[id], now)
          else q'.jobs.items[id] == q.jobs.items[id])
  }

  /** Only the lease of `id` may have changed, and exactly running jobs have leases. */
  ghost predicate OtherLeasesStay(q: Queue, q': Queue, id: string) {
    && (forall x :: x != id ==> (x in q'.leases.items <==> x in q.leases.items))
    && (forall x :: x != id && x in q.leases.items ==> q'.leases.items[x] == q.leases.items[x])
  }

  /** Only running jobs have leases. */
  ghost predicate LeasesRun(q: Queue) {
    forall id :: id in q.leases.items ==> id in q.jobs.items && q.jobs.items[id].state == Running
  }

  lemma ReclaimOneReclaims(q: Queue, id: string, now: int)
    requires LeasesRun(q)
    ensures var q' := ReclaimOne(q, id, now).queue;
      && RecordsReclaimed(q, q', [id], now) && OtherLeasesStay(q, q', id) && LeasesRun(q')
      && q'.waiting == (if IsRetried(q, id, now) then [id] else []) + q.waiting
      && q'.leases.order == (if HasExpired(q, id, now) then Without(q.leases.order, id) else q.leases.order)
  {}

  lemma RecordsReclaimedThen(q: Queue, q1: Queue, q2: Queue, id: string, ids: seq<string>, now: int)
    requires RecordsReclaimed(q, q1, [id], now) && OtherLeasesStay(q, q1, id) && id !in ids
    requires RecordsReclaimed(q1, q2, ids, now)
    ensures RecordsReclaimed(q, q2, [id] + ids, now)
  {
    hide IsReclaimed;
  }

  lemma {:induction false} RetriedSame(q: Queue, q1: Queue, id: string, ids: seq<string>, now: int)
    requires RecordsReclaimed(q, q1, [id], now) && OtherLeasesStay(q, q1, id) && id !in ids
    ensures RetriedBackwards(q1, ids, now) == RetriedBackwards(q, ids, now)
    decreases |ids|
  {
    if ids != [] {
      var head := ids[0];
      assert head in ids;
      RetriedSame(q, q1, id, ids[1..], now);
      hide IsReclaimed;
    }
  }

  lemma {:induction false} ReclaimAllReclaims(q: Queue, ids: seq<string>, now: int)
    requires LeasesRun(q) && NoDup(ids)
    ensures var q' := ReclaimAll(q, ids, now).queue;
      RecordsReclaimed(q, q', ids, now) && q'.waiting == RetriedBackwards(q, ids, now) + q.waiting
    decreases |ids|
  {
    if ids != [] {
      var head, rest := ids[0], ids[1..];
      var q1 := ReclaimOne(q, head, now).queue;
      ReclaimOneReclaims(q, head, now);
      assert head !in rest && NoDup(rest) && ids == [head] + rest;
      hide ReclaimOne, NoDup, RecordsReclaimed, OtherLeasesStay, LeasesRun, IsRetried;
      ReclaimAllReclaims(q1, rest, now);
      RetriedSame(q, q1, head, rest, now);
      var q' := ReclaimAll(q1, rest, now).queue;
      assert ReclaimAll(q, ids, now).queue == q';
      RecordsReclaimedThen(q, q1, q', head, rest, now);
      var first := if IsRetried(q, head, now) then [head] else [];
      assert RetriedBackwards(q, ids, now) == RetriedBackwards(q, rest, now) + first;
      hide ReclaimAll, RetriedBackwards;
      ConcatAssoc(RetriedBackwards(q, rest, now), first, q.waiting);
    }
  }

  /** `order` without the expired ones among `ids`. */
  function WithoutExpired(q: Queue, order: seq<string>, ids: seq<string>, now: int): seq<string>
    decreases |ids|
  {
    if ids == [] then order
    else WithoutExpired(q, if HasExpired(q, ids[0], now) then Without(order, ids[0]) else order, ids[1..], now)
  }

  lemma {:induction false} LeasesLeft(q: Queue, q0: Queue, ids: seq<string>, now: int)
    requires LeasesRun(q) && NoDup(ids)
    requires forall id :: id in ids ==> (HasExpired(q, id, now) <==> HasExpired(q0, id, now))
    ensures ReclaimAll(q, ids, now).queue.leases.order == WithoutExpired(q0, q.leases.order, ids, now)
    decreases |ids|
  {
    if ids != [] {
      var head, rest := ids[0], ids[1..];
      assert head in ids && head !in rest && forall id :: id in rest ==> id in ids;
      ReclaimOneReclaims(q, head, now);
      assert NoDup(rest);
      hide ReclaimOne, NoDup, RecordsReclaimed, LeasesRun, IsRetried;
      LeasesLeft(ReclaimOne(q, head, now).queue, q0, rest, now);
    }
  }

  lemma {:induction false} WithoutExpiredHead(q: Queue, order: seq<string>, id: string, ids: seq<string>, now: int)
    requires id !in ids
    ensures WithoutExpired(q, [id] + order, ids, now) == [id] + WithoutExpired(q, order, ids, now)
    decreases |ids|
  {
    if ids != [] {
      var head := ids[0];
      assert head in ids;
      assert ([id] + order)[1..] == order;
      assert Without([id] + order, head) == [id] + Without(order, head);
      WithoutExpiredHead(q, if HasExpired(q, head, now) then Without(order, head) else order, id, ids[1..], now);
    }
  }

  lemma {:induction false} WithoutExpiredIsLive(q: Queue, ids: seq<string>, now: int)
    requires NoDup(ids)
    ensures WithoutExpired(q, ids, ids, now) == LiveOnes(q, ids, now)
    decreases |ids|
  {
    if ids != [] {
      var head, rest := ids[0], ids[1..];
      assert head !in rest && NoDup(rest) && ids == [head] + rest;
      assert Without(ids, head) == rest;
      if !HasExpired(q, head, now) {
        WithoutExpiredHead(q, rest, head, rest, now);
      }
      WithoutExpiredIsLive(q, rest, now);
    }
  }

  /** What reclaiming does: the job of an expired lease is retried if it has attempts left and timed out otherwise, other
      jobs are untouched, the retried ones come before the old line, last lease first, and the other leases stay in order. */
  lemma ReclaimEffect(cfg: Config, q: Queue, now: int)
    requires Inv(cfg, q)
    ensures var q' := ReclaimStale(q, now).queue;
      && q'.idempotency == q.idempotency && q'.jobs.order == q.jobs.order
      && (forall id :: id in q'.jobs.items <==> id in q.jobs.items)
      && (forall id :: id in q.jobs.items ==>
            if HasExpired(q, id, now) then IsReclaimed(q.jobs.items[id], q'.jobs.items[id], now)
            else q'.jobs.items[id] == q.jobs.items[id])
      && q'.waiting == RetriedBackwards(q, q.leases.order, now) + q.waiting
      && q'.leases.order == LiveOnes(q, q.leases.order, now)
      && (forall id :: id in q'.leases.items <==> id in q.leases.items && !HasExpired(q, id, now))
      && (forall id :: id in q'.leases.items ==> q'.leases.items[id] == q.leases.items[id])
  {
    assert LeasesRun(q) && NoDup(q.leases.order);
    assert forall id :: HasExpired(q, id, now) ==> id in q.leases.order;
    ReclaimAllReclaims(q, q.leases.order, now);
    LeasesLeft(q, q, q.leases.order, now);
    WithoutExpiredIsLive(q, q.leases.order, now);
    ReclaimStaleKeepsInv(cfg, q, now);
    hide ReclaimAll, Inv, IsReclaimed;
  }

  /** A call changes the record of `id` to `after`, the line, and nothing else but, perhaps, leases and keys. */
  ghost predicate Rewritten(q: Queue, q': Queue, id: string, after: Job, line: seq<string>) {
    && id in q.jobs.items && q'.jobs.order == q.jobs.order && q'.jobs.items == q.jobs.items[id := after]
    && q'.waiting == line && q'.idempotency == q.idempotency
  }

  /** Exactly the lease of `id` is gone. */
  ghost predicate LeaseEnds(q: Queue, q': Queue, id: string) {
    && q'.leases.items == q.leases.items - {id} && q'.leases.order == Without(q.leases.order, id)
  }

  // ---------------------------------------------------------------- submissions

  /** The record of a new submission: its key is the given one, or else the given job id. */
  ghost predicate IsSubmitted(cfg: Config, job: Job, data: JobData, freshId: string, now: int) {
    && job.id == (if data.jobId.Some? && data.jobId.value != "" then data.jobId.value else freshId)
    && job.key == (if data.key.Some? && data.key.value != "" then data.key
                   else if data.jobId.Some? && data.jobId.value != "" then data.jobId else None)
    && job.principal == (if data.principal.Some? && data.principal.value != "" then data.principal.value else "anonymous")
    && job.payload == data.payload && job.maxRetries == cfg.maxRetries && job.createdAt == now && job.updatedAt == now
    && job.state == Queued && job.attempts == 0 && job.result == None && job.error == None
  }

  /** The key under which a submission is looked up. */
  ghost predicate LookedUp(q: Queue, data: JobData, key: string) {
    && (if data.key.Some? && data.key.value != "" then data.key == Some(key) else data.jobId == Some(key) && key != "")
    && key in q.idempotency && q.idempotency[key] in q.jobs.items
  }

  /** A submission under a known key is answered with the job of that key; else one that finds the line full is refused;
      any other goes to the end of the line under its id and key. */
  lemma EnqueueEffect(cfg: Config, q: Queue, data: JobData, freshId: string, now: int)
    ensures var o := Enqueue(cfg, q, data, freshId, now);
      && (forall key :: LookedUp(q, data, key) ==> o.result == Duplicate(q.jobs.items[q.idempotency[key]]) && o.queue == q)
      && ((forall key :: !LookedUp(q, data, key)) ==>
            if |q.waiting| >= cfg.maxQueueDepth then o.result == BackpressureExceeded && o.queue == q
            else
              && o.result.Accepted? && IsSubmitted(cfg, o.result.job, data, freshId, now)
              && o.queue.jobs.items == q.jobs.items[o.result.job.id := o.result.job]
              && o.queue.jobs.order == q.jobs.order + (if o.result.job.id in q.jobs.items then [] else [o.result.job.id])
              && o.queue.waiting == q.waiting + [o.result.job.id] && o.queue.leases == q.leases
              && o.queue.idempotency == if o.result.job.key.Some? then q.idempotency[o.result.job.key.value := o.result.job.id] else q.idempotency)
  {
    if IsDuplicate(q, data) { assert LookedUp(q, data, KeyOf(data).value); }
  }

  // ---------------------------------------------------------------- leases

  /** The first waiting job is started: it runs its next attempt under a new lease. */
  ghost predicate Starts(cfg: Config, s: Queue, o: Outcome<Option<Leased>>, worker: string, duration: Option<int>, token: string, now: int) {
    s.waiting != [] && o.result.Some? &&
    var id, leased := s.waiting[0], o.result.value;
    var ms := if duration.Some? && duration.value != 0 then duration.value else cfg.defaultLeaseMs;
    && id in s.jobs.items && leased.token == token && leased.expiresAt == now + ms
    && leased.job == s.jobs.items[id].(state := Running, attempts := s.jobs.items[id].attempts + 1, updatedAt := now)
    && Rewritten(s, o.queue, id, leased.job, s.waiting[1..])
    && o.queue.leases.order == s.leases.order + [id]
    && o.queue.leases.items == s.leases.items[id := Lease(token, worker, now + ms, ms)]
  }

  lemma TakeStarts(cfg: Config, s: Queue, worker: string, duration: Option<int>, token: string, now: int)
    requires |s.leases.order| < cfg.maxRunningJobs && s.waiting != []
    requires var id := s.waiting[0]; id in s.jobs.items && s.jobs.items[id].state == Queued && id !in s.leases.items
    ensures Starts(cfg, s, TakeWaiting(cfg, s, worker, duration, token, now), worker, duration, token, now)
  {}

  /** After reclaiming, a job is started exactly if one waits and there is room. */
  lemma LeaseEffect(cfg: Config, q: Queue, worker: string, duration: Option<int>, token: string, now: int)
    requires Inv(cfg, q)
    ensures var s := ReclaimStale(q, now).queue; var o := LeaseNext(cfg, q, worker, duration, token, now);
      if |s.leases.order| >= cfg.maxRunningJobs || s.waiting == [] then o.result == None && o.queue == s
      else Starts(cfg, s, o, worker, duration, token, now)
  {
    ReclaimStaleKeepsInv(cfg, q, now);
    var s := ReclaimStale(q, now).queue;
    hide ReclaimStale, Starts;
    if |s.leases.order| < cfg.maxRunningJobs && s.waiting != [] {
      FrontIsReady(cfg, s);
      hide Inv;
      TakeStarts(cfg, s, worker, duration, token, now);
      StartsOnly(cfg, s, q, worker, duration, token, now);
    }
  }

  lemma StartsOnly(cfg: Config, s: Queue, q: Queue, worker: string, duration: Option<int>, token: string, now: int)
    requires s == ReclaimStale(q, now).queue
    ensures var o, t := LeaseNext(cfg, q, worker, duration, token, now), TakeWaiting(cfg, s, worker, duration, token, now);
      o.queue == t.queue && o.result == t.result
  {}

  lemma FrontIsReady(cfg: Config, q: Queue)
    requires Inv(cfg, q) && q.waiting != []
    ensures var id := q.waiting[0]; id in q.jobs.items && q.jobs.items[id].state == Queued && id !in q.leases.items
  {
    assert q.waiting[0] in q.waiting;
  }

  /** A holder whose lease has not expired, and nobody else, moves its end: by the extension, or else by the lease's own
      duration, or else by the default. */
  lemma HeartbeatEffect(cfg: Config, q: Queue, id: string, token: string, extension: Option<int>, now: int)
    requires Inv(cfg, q)
    ensures var o := Heartbeat(cfg, q, id, token, extension, now);
      && (o.result <==> id in q.leases.items && q.leases.items[id].token == token && !HasExpired(q, id, now))
      && (!o.result ==> o.queue == q)
      && (o.result ==>
            var lease := q.leases.items[id];
            var ms := if extension.Some? && extension.value != 0 then extension.value
                      else if lease.durationMs != 0 then lease.durationMs else cfg.defaultLeaseMs;
            && id in q.jobs.items && Rewritten(q, o.queue, id, q.jobs.items[id].(updatedAt := now), q.waiting)
            && o.queue.leases.order == q.leases.order
            && o.queue.leases.items == q.leases.items[id := Lease(token, lease.worker, now + ms, lease.durationMs)])
  {}

  // ---------------------------------------------------------------- ends of a job

  /** The holder completes its job with a result. */
  lemma CompleteEffect(cfg: Config, q: Queue, id: string, token: string, result: string, now: int)
    requires Inv(cfg, q)
    ensures var o := Complete(q, id, token, result, now);
      && (o.result <==> id in q.leases.items && q.leases.items[id].token == token)
      && (!o.result ==> o.queue == q)
      && (o.result ==>
            && id in q.jobs.items && LeaseEnds(q, o.queue, id)
            && Rewritten(q, o.queue, id, q.jobs.items[id].(state := Completed, result := Some(result), updatedAt := now), q.waiting))
  {}

  /** The holder fails its job: one with attempts left goes to the front of the line, another has failed for good. */
  lemma FailEffect(cfg: Config, q: Queue, id: string, token: string, error: JobError, now: int)
    requires Inv(cfg, q)
    ensures var o := Fail(q, id, token, error, now);
      && (o.result <==> id in q.leases.items && q.leases.items[id].token == token)
      && (!o.result ==> o.queue == q)
      && (o.result ==>
            && id in q.jobs.items && LeaseEnds(q, o.queue, id)
            && var job := q.jobs.items[id];
               if job.attempts < job.maxRetries then
                 Rewritten(q, o.queue, id, job.(state := Queued, updatedAt := now), [id] + q.waiting)
               else Rewritten(q, o.queue, id, job.(state := Failed, error := Some(error), updatedAt := now), q.waiting))
  {}

  ghost predicate Cancels(q: Queue, o: Outcome<bool>, id: string, reason: string, now: int) {
    id in q.jobs.items && o.result && LeaseEnds(q, o.queue, id)
    && Rewritten(q, o.queue, id,
                 q.jobs.items[id].(state := Cancelled, error := Some(JobError("CANCELLED", reason)), updatedAt := now),
                 Without(q.waiting, id))
  }

  lemma UnendedIsCancelled(q: Queue, id: string, reason: string, now: int)
    requires id in q.jobs.items && q.jobs.items[id].state in {Queued, Running}
    requires id in q.leases.order ==> id in q.leases.items
    ensures Cancels(q, Cancel(q, id, reason, now), id, reason, now)
  {
    hide Without;
  }

  lemma StatesOccur(cfg: Config, q: Queue, id: string)
    requires Inv(cfg, q) && id in q.jobs.items
    ensures q.jobs.items[id].state in {Queued, Running} || IsTerminal(q.jobs.items[id].state)
    ensures id in q.leases.order ==> id in q.leases.items
  {}

  /** Any job that has not ended is cancelled, leaves the line and loses its lease. */
  lemma CancelEffect(cfg: Config, q: Queue, id: string, reason: string, now: int)
    requires Inv(cfg, q)
    ensures var o := Cancel(q, id, reason, now);
      if id in q.jobs.items && q.jobs.items[id].state in {Queued, Running} then Cancels(q, o, id, reason, now)
      else !o.result && o.queue == q
  {
    if id in q.jobs.items {
      StatesOccur(cfg, q, id);
      hide Inv, Cancels;
      if q.jobs.items[id].state in {Queued, Running} { UnendedIsCancelled(q, id, reason, now); }
    }
  }
}

/** Whole runs of the queue: any sequence of calls, with job histories, bounded work, fencing of
    lease tokens and permanence of idempotency keys. */
module QueueRuns {
  import opened Collections
  import opened JobStates
  import opened QueueModel
  import opened QueueInvariant

  datatype Call =
    | CallEnqueue(data: JobData, freshId: string, now: int)
    | CallLease(worker: string, duration: Option<int>, token: string, now: int)
    | CallHeartbeat(id: string, token: string, extension: Option<int>, now: int)
    | CallComplete(id: string, token: string, result: string, now: int)
    | CallFail(id: string, token: string, error: JobError, now: int)
    | CallCancel(id: string, reason: string, now: int)
    | CallStats(now: int)

  function Apply(cfg: Config, q: Queue, call: Call): (Queue, seq<Change>) {
    match call
    case CallEnqueue(data, freshId, now) => var o := Enqueue(cfg, q, data, freshId, now); (o.queue, o.changes)
    case CallLease(worker, duration, token, now) => var o := LeaseNext(cfg, q, worker, duration, token, now); (o.queue, o.changes)
    case CallHeartbeat(id, token, extension, now) => var o := Heartbeat(cfg, q, id, token, extension, now); (o.queue, o.changes)
    case CallComplete(id, token, result, now) => var o := Complete(q, id, token, result, now); (o.queue, o.changes)
    case CallFail(id, token, error, now) => var o := Fail(q, id, token, error, now); (o.queue, o.changes)
    case CallCancel(id, reason, now) => var o := Cancel(q, id, reason, now); (o.queue, o.changes)
    case CallStats(now) => var o := GetStats(q, now); (o.queue, o.changes)
  }

  /** A run so far: the queue, the lease tokens drawn, and every job state change in order. */
  datatype Trace = Trace(queue: Queue, issued: set<string>, log: seq<Change>)

  const BEGIN := Trace(EMPTY_QUEUE, {}, [])

  function Next(cfg: Config, t: Trace, call: Call): Trace {
    var (q, changes) := Apply(cfg, t.queue, call);
    Trace(q, if call.CallLease? then t.issued + {call.token} else t.issued, t.log + changes)
  }

  function Run(cfg: Config, t: Trace, calls: seq<Call>): Trace
    decreases |calls|
  {
    if calls == [] then t else Run(cfg, Next(cfg, t, calls[0]), calls[1..])
  }

  /** Random tokens are new, and an accepted submission's job id is not in use. */
  predicate IsFresh(cfg: Config, t: Trace, call: Call) {
    match call
    case CallLease(_, _, token, _) => token !in t.issued
    case CallEnqueue(data, freshId, _) =>
      IsDuplicate(t.queue, data) || IsFull(cfg, t.queue) || IdOf(data, freshId) !in t.queue.jobs.items
    case _ => true
  }

  predicate IsFreshRun(cfg: Config, t: Trace, calls: seq<Call>)
    decreases |calls|
  {
    calls == [] || (IsFresh(cfg, t, calls[0]) && IsFreshRun(cfg, Next(cfg, t, calls[0]), calls[1..]))
  }

  // ---------------------------------------------------------------- job histories

  /** The states job `id` went through, starting from QUEUED. */
  function History(log: seq<Change>, id: string): (h: seq<JobState>)
    ensures h != []
  {
    if log == [] then [Queued]
    else
      var last := log[|log| - 1];
      History(log[..|log| - 1], id) + if last.id == id then [last.to] else []
  }

  ghost predicate EndsIn(h: seq<JobState>, s: JobState) {
    h != [] && h[|h| - 1] == s && IsPath(h) && EndsOnce(h)
  }

  ghost predicate HistoriesOk(jobs: map<string, Job>, log: seq<Change>) {
    && (forall id :: id in jobs ==> EndsIn(History(log, id), jobs[id].state))
    && (forall id :: id !in jobs ==> History(log, id) == [Queued])
  }

  // ---------------------------------------------------------------- remaining work

  /** How many more state changes a job admits at most. */
  function Credit(cfg: Config, job: Job): int {
    if IsTerminal(job.state) then 0
    else 2 * (AttemptLimit(cfg) - job.attempts) + if job.state == Running then 1 else 0
  }

  function TotalCredit(cfg: Config, jobs: map<string, Job>, order: seq<string>): int
    requires forall id :: id in order ==> id in jobs
  {
    if order == [] then 0 else Credit(cfg, jobs[order[0]]) + TotalCredit(cfg, jobs, order[1..])
  }

  /** The state changes `n` accepted jobs may ever make. */
  function WorkBound(cfg: Config, n: nat): int {
    2 * AttemptLimit(cfg) * n
  }

  ghost predicate WorkOk(cfg: Config, jobs: OrderedMap<string, Job>, log: seq<Change>) {
    && jobs.WellFormed()
    && |log| + TotalCredit(cfg, jobs.items, jobs.order) <= WorkBound(cfg, |jobs.order|)
  }

  lemma {:induction false} CreditNonNegative(cfg: Config, q: Queue, order: seq<string>)
    requires JobsOk(cfg, q)
    requires forall id :: id in order ==> id in q.jobs.items
    ensures TotalCredit(cfg, q.jobs.items, order) >= 0
  {
    if order != [] {
      assert order[0] in order;
      CreditNonNegative(cfg, q, order[1..]);
    }
  }

  lemma {:induction false} CreditSame(cfg: Config, jobs: map<string, Job>, jobs': map<string, Job>, order: seq<string>)
    requires forall id :: id in order ==> id in jobs && id in jobs' && Credit(cfg, jobs[id]) == Credit(cfg, jobs'[id])
    ensures TotalCredit(cfg, jobs, order) == TotalCredit(cfg, jobs', order)
  {
    if order != [] {
      assert order[0] in order;
      CreditSame(cfg, jobs, jobs', order[1..]);
    }
  }

  lemma {:induction false} CreditOfOne(cfg: Config, jobs: map<string, Job>, jobs': map<string, Job>, order: seq<string>, id: string)
    requires NoDup(order) && id in order
    requires forall x :: x in order ==> x in jobs && x in jobs' && (x != id ==> jobs'[x] == jobs[x])
    ensures TotalCredit(cfg, jobs', order) == TotalCredit(cfg, jobs, order) - Credit(cfg, jobs[id]) + Credit(cfg, jobs'[id])
  {
    assert order[0] in order;
    if order[0] == id {
      assert id !in order[1..];
      CreditSame(cfg, jobs, jobs', order[1..]);
    } else {
      CreditOfOne(cfg, jobs, jobs', order[1..], id);
    }
  }

  lemma {:induction false} CreditAppend(cfg: Config, jobs: map<string, Job>, order: seq<string>, id: string)
    requires id in jobs && forall x :: x in order ==> x in jobs
    ensures TotalCredit(cfg, jobs, order + [id]) == TotalCredit(cfg, jobs, order) + Credit(cfg, jobs[id])
  {
    if order == [] {
      assert order + [id] == [id];
      assert TotalCredit(cfg, jobs, [id][1..]) == 0;
    } else {
      assert (order + [id])[1..] == order[1..] + [id];
      CreditAppend(cfg, jobs, order[1..], id);
    }
  }

  // ---------------------------------------------------------------- what a run keeps

  ghost predicate Good(cfg: Config, q: Queue, log: seq<Change>) {
    Inv(cfg, q) && HistoriesOk(q.jobs.items, log) && WorkOk(cfg, q.jobs, log)
  }

  /** One job makes one legal change that uses up credit. */
  ghost predicate OneChange(cfg: Config, jobs: OrderedMap<string, Job>, jobs': OrderedMap<string, Job>, c: Change) {
    && c.id in jobs.items
    && c.id in jobs'.items
    && jobs'.order == jobs.order
    && jobs'.items == jobs.items[c.id := jobs'.items[c.id]]
    && jobs.items[c.id].state == c.from
    && jobs'.items[c.id].state == c.to
    && IsValidTransition(c.from, c.to)
    && !IsTerminal(c.from)
    && Credit(cfg, jobs'.items[c.id]) < Credit(cfg, jobs.items[c.id])
  }

  lemma EndsInStep(h: seq<JobState>, from: JobState, to: JobState)
    requires EndsIn(h, from) && IsValidTransition(from, to) && !IsTerminal(from)
    ensures EndsIn(h + [to], to)
  {
    var h' := h + [to];
    forall i | 0 < i < |h'| ensures IsValidTransition(h'[i - 1], h'[i]) {
      if i < |h| { assert h'[i - 1] == h[i - 1] && h'[i] == h[i]; }
    }
  }

  lemma HistoryStep(log: seq<Change>, change: Change, id: string)
    ensures History(log + [change], id) == if id == change.id then History(log, id) + [change.to] else History(log, id)
  {
    assert (log + [change])[..|log|] == log;
  }

  lemma {:induction false} HistoriesAfterChange(cfg: Config, jobs: OrderedMap<string, Job>, log: seq<Change>, jobs': OrderedMap<string, Job>, change: Change)
    requires HistoriesOk(jobs.items, log) && OneChange(cfg, jobs, jobs', change)
    ensures HistoriesOk(jobs'.items, log + [change])
  {
    hide Credit, IsPath, EndsIn, IsValidTransition, History;
    forall id ensures History(log + [change], id) == if id == change.id then History(log, id) + [change.to] else History(log, id) {
      HistoryStep(log, change, id);
    }
    EndsInStep(History(log, change.id), change.from, change.to);
  }

  lemma WorkAfterChange(cfg: Config, jobs: OrderedMap<string, Job>, log: seq<Change>, jobs': OrderedMap<string, Job>, change: Change)
    requires WorkOk(cfg, jobs, log) && OneChange(cfg, jobs, jobs', change)
    ensures WorkOk(cfg, jobs', log + [change])
  {
    hide Credit, IsValidTransition, WorkBound, TotalCredit;
    CreditOfOne(cfg, jobs.items, jobs'.items, jobs.order, change.id);
  }

  lemma {:induction false} ChangeKeepsGood(cfg: Config, q: Queue, log: seq<Change>, q': Queue, change: Change)
    requires Good(cfg, q, log) && Inv(cfg, q') && OneChange(cfg, q.jobs, q'.jobs, change)
    ensures Good(cfg, q', log + [change])
  {
    hide Inv, HistoriesOk, WorkOk, OneChange;
    HistoriesAfterChange(cfg, q.jobs, log, q'.jobs, change);
    WorkAfterChange(cfg, q.jobs, log, q'.jobs, change);
  }

  /** A call that, when it has an effect, makes one legal change. */
  ghost predicate AtMostOneChange(cfg: Config, q: Queue, q': Queue, changes: seq<Change>) {
    || (changes == [] && q' == q)
    || (|changes| == 1 && OneChange(cfg, q.jobs, q'.jobs, changes[0]))
  }

  lemma {:induction false} EffectKeepsGood(cfg: Config, q: Queue, log: seq<Change>, q': Queue, changes: seq<Change>)
    requires Good(cfg, q, log) && Inv(cfg, q') && AtMostOneChange(cfg, q, q', changes)
    ensures Good(cfg, q', log + changes)
  {
    hide Good, Inv, OneChange;
    if changes == [] {
      assert log + changes == log;
    } else {
      ChangeKeepsGood(cfg, q, log, q', changes[0]);
      assert changes == [changes[0]];
    }
  }

  // ---------------------------------------------------------------- the calls

  lemma {:induction false} EnqueueKeepsGood(cfg: Config, q: Queue, log: seq<Change>, data: JobData, freshId: string, now: int)
    requires Good(cfg, q, log)
    requires IsDuplicate(q, data) || IsFull(cfg, q) || IdOf(data, freshId) !in q.jobs.items
    ensures Good(cfg, Enqueue(cfg, q, data, freshId, now).queue, log)
  {
    hide Inv, WorkOk, IsDuplicate;
    EnqueueKeepsInv(cfg, q, data, freshId, now);
    if !IsDuplicate(q, data) && !IsFull(cfg, q) {
      WorkAfterAdmit(cfg, q.jobs, log, NewJob(cfg, data, freshId, now));
    }
  }

  lemma WorkBoundStep(cfg: Config, n: nat)
    ensures WorkBound(cfg, n + 1) == WorkBound(cfg, n) + 2 * AttemptLimit(cfg)
  {
    var k := 2 * AttemptLimit(cfg);
    assert k * (n + 1) == k * n + k;
  }

  lemma WorkAfterAdmit(cfg: Config, jobs: OrderedMap<string, Job>, log: seq<Change>, job: Job)
    requires WorkOk(cfg, jobs, log)
    requires job.id !in jobs.items && job.state == Queued && job.attempts == 0
    ensures WorkOk(cfg, jobs.Set(job.id, job), log)
  {
    var jobs' := jobs.Set(job.id, job);
    assert jobs'.WellFormed() by { SetKeepsWellFormed(jobs, job.id, job); }
    hide TotalCredit, NoDup, WorkBound;
    WorkBoundStep(cfg, |jobs.order|);
    CreditSame(cfg, jobs.items, jobs'.items, jobs.order);
    CreditAppend(cfg, jobs'.items, jobs.order, job.id);
  }

  lemma {:induction false} ReclaimOneKeepsGood(cfg: Config, q: Queue, log: seq<Change>, id: string, now: int)
    requires Good(cfg, q, log)
    ensures var o := ReclaimOne(q, id, now); Good(cfg, o.queue, log + o.changes)
  {
    var o := ReclaimOne(q, id, now);
    ReclaimOneKeepsInv(cfg, q, id, now);
    if IsStale(q, id, now) {
      ReclaimOneChange(cfg, q, id, now);
      hide Good, ReclaimOne, OneChange;
      ChangeKeepsGood(cfg, q, log, o.queue, o.changes[0]);
      assert o.changes == [o.changes[0]];
    } else {
      assert log + o.changes == log;
    }
  }

  lemma ReclaimOneChange(cfg: Config, q: Queue, id: string, now: int)
    requires Inv(cfg, q) && IsStale(q, id, now)
    ensures var o := ReclaimOne(q, id, now); |o.changes| == 1 && OneChange(cfg, q.jobs, o.queue.jobs, o.changes[0])
  {}

  lemma {:induction false} ReclaimAllKeepsGood(cfg: Config, q: Queue, log: seq<Change>, ids: seq<string>, now: int)
    requires Good(cfg, q, log)
    ensures var o := ReclaimAll(q, ids, now); Good(cfg, o.queue, log + o.changes)
    decreases |ids|
  {
    hide Good, ReclaimOne;
    if ids == [] {
      assert log + [] == log;
    } else {
      var first := ReclaimOne(q, ids[0], now);
      var rest := ReclaimAll(first.queue, ids[1..], now);
      ReclaimOneKeepsGood(cfg, q, log, ids[0], now);
      ReclaimAllKeepsGood(cfg, first.queue, log + first.changes, ids[1..], now);
      assert log + (first.changes + rest.changes) == (log + first.changes) + rest.changes;
    }
  }

  lemma LeaseChange(cfg: Config, q: Queue, worker: string, duration: Option<int>, token: string, now: int)
    requires Inv(cfg, ReclaimStale(q, now).queue)
    ensures var r := ReclaimStale(q, now); var o := LeaseNext(cfg, q, worker, duration, token, now);
      exists changes :: AtMostOneChange(cfg, r.queue, o.queue, changes) && o.changes == r.changes + changes
  {
    hide ReclaimStale;
    var r := ReclaimStale(q, now);
    var o := LeaseNext(cfg, q, worker, duration, token, now);
    if |r.queue.leases.order| >= cfg.maxRunningJobs || r.queue.waiting == [] {
      assert AtMostOneChange(cfg, r.queue, o.queue, []);
      assert o.changes == r.changes + [];
    } else {
      assert r.queue.waiting[0] in r.queue.waiting;
      assert AtMostOneChange(cfg, r.queue, o.queue, [Change(r.queue.waiting[0], Queued, Running)]);
    }
  }

  lemma {:induction false} LeaseKeepsGood(cfg: Config, q: Queue, log: seq<Change>, worker: string, duration: Option<int>, token: string, now: int)
    requires Good(cfg, q, log)
    ensures var o := LeaseNext(cfg, q, worker, duration, token, now); Good(cfg, o.queue, log + o.changes)
  {
    hide Inv, HistoriesOk, WorkOk, AtMostOneChange, LeaseNext, ReclaimAll;
    var r := ReclaimStale(q, now);
    ReclaimAllKeepsGood(cfg, q, log, q.leases.order, now);
    var o := LeaseNext(cfg, q, worker, duration, token, now);
    LeaseNextKeepsInv(cfg, q, worker, duration, token, now);
    LeaseChange(cfg, q, worker, duration, token, now);
    var changes :| AtMostOneChange(cfg, r.queue, o.queue, changes) && o.changes == r.changes + changes;
    EffectKeepsGood(cfg, r.queue, log + r.changes, o.queue, changes);
    assert log + o.changes == (log + r.changes) + changes;
  }

  /** Nothing that histories and credit depend on changes. */
  lemma QuietKeepsGood(cfg: Config, jobs: OrderedMap<string, Job>, log: seq<Change>, jobs': OrderedMap<string, Job>)
    requires HistoriesOk(jobs.items, log) && WorkOk(cfg, jobs, log)
    requires jobs'.order == jobs.order && jobs'.items.Keys == jobs.items.Keys
    requires forall id :: id in jobs.items ==>
               jobs'.items[id].state == jobs.items[id].state && jobs'.items[id].attempts == jobs.items[id].attempts
    ensures HistoriesOk(jobs'.items, log) && WorkOk(cfg, jobs', log)
  {
    hide TotalCredit, History, EndsIn, NoDup;
    CreditSame(cfg, jobs.items, jobs'.items, jobs.order);
  }

  lemma HeartbeatKeepsGood(cfg: Config, q: Queue, log: seq<Change>, id: string, token: string, extension: Option<int>, now: int)
    requires Good(cfg, q, log)
    ensures Good(cfg, Heartbeat(cfg, q, id, token, extension, now).queue, log)
  {
    hide Inv, HistoriesOk, WorkOk;
    var q' := Heartbeat(cfg, q, id, token, extension, now).queue;
    HeartbeatKeepsInv(cfg, q, id, token, extension, now);
    QuietKeepsGood(cfg, q.jobs, log, q'.jobs);
  }

  lemma CompleteChange(cfg: Config, q: Queue, id: string, token: string, result: string, now: int)
    requires Inv(cfg, q)
    ensures var o := Complete(q, id, token, result, now); AtMostOneChange(cfg, q, o.queue, o.changes)
  {}

  lemma FailChange(cfg: Config, q: Queue, id: string, token: string, error: JobError, now: int)
    requires Inv(cfg, q)
    ensures var o := Fail(q, id, token, error, now); AtMostOneChange(cfg, q, o.queue, o.changes)
  {}

  lemma CancelChange(cfg: Config, q: Queue, id: string, reason: string, now: int)
    requires Inv(cfg, q)
    ensures var o := Cancel(q, id, reason, now); AtMostOneChange(cfg, q, o.queue, o.changes)
  {}

  lemma {:induction false} NextKeepsGood(cfg: Config, t: Trace, call: Call)
    requires Good(cfg, t.queue, t.log)
    requires IsFresh(cfg, t, call)
    ensures var t' := Next(cfg, t, call); Good(cfg, t'.queue, t'.log)
  {
    hide Inv, HistoriesOk, WorkOk, AtMostOneChange;
    var (q', changes) := Apply(cfg, t.queue, call);
    assert t.log + [] == t.log;
    match call
    case CallEnqueue(data, freshId, now) =>
      EnqueueKeepsGood(cfg, t.queue, t.log, data, freshId, now);
    case CallLease(worker, duration, token, now) =>
      LeaseKeepsGood(cfg, t.queue, t.log, worker, duration, token, now);
    case CallHeartbeat(id, token, extension, now) =>
      HeartbeatKeepsGood(cfg, t.queue, t.log, id, token, extension, now);
    case CallComplete(id, token, result, now) =>
      CompleteKeepsInv(cfg, t.queue, id, token, result, now);
      CompleteChange(cfg, t.queue, id, token, result, now);
      EffectKeepsGood(cfg, t.queue, t.log, q', changes);
    case CallFail(id, token, error, now) =>
      FailKeepsInv(cfg, t.queue, id, token, error, now);
      FailChange(cfg, t.queue, id, token, error, now);
      EffectKeepsGood(cfg, t.queue, t.log, q', changes);
    case CallCancel(id, reason, now) =>
      CancelKeepsInv(cfg, t.queue, id, reason, now);
      CancelChange(cfg, t.queue, id, reason, now);
      EffectKeepsGood(cfg, t.queue, t.log, q', changes);
    case CallStats(now) =>
      ReclaimAllKeepsGood(cfg, t.queue, t.log, t.queue.leases.order, now);
  }

  lemma {:induction false} RunKeepsGood(cfg: Config, t: Trace, calls: seq<Call>)
    requires Good(cfg, t.queue, t.log)
    requires IsFreshRun(cfg, t, calls)
    ensures var t' := Run(cfg, t, calls); Good(cfg, t'.queue, t'.log)
    decreases |calls|
  {
    hide Good, Next, IsFresh;
    if calls != [] {
      NextKeepsGood(cfg, t, calls[0]);
      RunKeepsGood(cfg, Next(cfg, t, calls[0]), calls[1..]);
    }
  }

  // ---------------------------------------------------------------- theorems about every run

  /** After any run from the empty queue: all parts of the queue agree, the waiting line is fair,
      and neither the leases nor waiting plus leased jobs exceed the configured capacity. */
  lemma {:induction false} EveryRunIsSafe(cfg: Config, calls: seq<Call>)
    requires IsFreshRun(cfg, BEGIN, calls)
    ensures var q := Run(cfg, BEGIN, calls).queue;
      && Inv(cfg, q)
      && |q.leases.order| <= Max(0, cfg.maxRunningJobs)
      && |q.waiting| + |q.leases.order| <= Max(0, cfg.maxQueueDepth) + Max(0, cfg.maxRunningJobs)
  {
    BeginGood(cfg);
    RunKeepsGood(cfg, BEGIN, calls);
  }

  lemma BeginGood(cfg: Config)
    ensures Good(cfg, BEGIN.queue, BEGIN.log)
  {
    EmptyInv(cfg);
  }

  /** n accepted jobs admit at most 2 * n * max(1, maxRetries) state changes, however calls are mixed. */
  lemma {:induction false} EveryRunIsBounded(cfg: Config, calls: seq<Call>)
    requires IsFreshRun(cfg, BEGIN, calls)
    ensures var t := Run(cfg, BEGIN, calls);
      |t.log| <= WorkBound(cfg, |t.queue.jobs.order|)
  {
    BeginGood(cfg);
    RunKeepsGood(cfg, BEGIN, calls);
    var t := Run(cfg, BEGIN, calls);
    CreditNonNegative(cfg, t.queue, t.queue.jobs.order);
  }

  /** Every job's history is a legal path that ends in its present state, nothing follows a terminal
      state (so a job completes at most once), and the API's view is a legal path of product states. */
  lemma {:induction false} EveryHistoryIsLegal(cfg: Config, calls: seq<Call>, id: string)
    requires IsFreshRun(cfg, BEGIN, calls)
    ensures var t := Run(cfg, BEGIN, calls);
      && IsPath(History(t.log, id))
      && EndsOnce(History(t.log, id))
      && IsProductPath(MapPath(History(t.log, id)))
      && (id in t.queue.jobs.items ==> EndsIn(History(t.log, id), t.queue.jobs.items[id].state))
  {
    BeginGood(cfg);
    RunKeepsGood(cfg, BEGIN, calls);
    PathMapsToProductPath(History(Run(cfg, BEGIN, calls).log, id));
  }

  // ---------------------------------------------------------------- fencing

  /** Lease tokens were drawn before, and no two leases share one. */
  ghost predicate TokensOk(leases: map<string, Lease>, issued: set<string>) {
    && (forall id :: id in leases ==> leases[id].token in issued)
    && (forall a, b :: a in leases && b in leases && leases[a].token == leases[b].token ==> a == b)
  }

  ghost predicate OnlyOldTokens(leases: map<string, Lease>, leases': map<string, Lease>) {
    forall id :: id in leases' ==> id in leases && leases'[id].token == leases[id].token
  }

  ghost predicate Fenced(leases: map<string, Lease>, token: string) {
    forall id :: id in leases ==> leases[id].token != token
  }

  /** Apart from the lease of `id` under `token`, leases were only dropped or prolonged. */
  ghost predicate AddsLease(leases: map<string, Lease>, leases': map<string, Lease>, token: string, id: string) {
    id in leases' && leases'[id].token == token && OnlyOldTokens(leases, leases' - {id})
  }

  lemma LeasesAfterLease(cfg: Config, q: Queue, worker: string, duration: Option<int>, token: string, now: int)
    ensures var q' := LeaseNext(cfg, q, worker, duration, token, now).queue;
      || OnlyOldTokens(q.leases.items, q'.leases.items)
      || exists id :: AddsLease(q.leases.items, q'.leases.items, token, id)
  {
    hide ReclaimAll;
    var s := ReclaimStale(q, now).queue;
    ReclaimAllLeases(q, q.leases.order, now);
    assert OnlyOldTokens(q.leases.items, s.leases.items);
    var q' := LeaseNext(cfg, q, worker, duration, token, now).queue;
    if q'.leases != s.leases {
      assert AddsLease(q.leases.items, q'.leases.items, token, s.waiting[0]);
    }
  }

  lemma LeasesAfterCall(cfg: Config, q: Queue, call: Call)
    ensures var q' := Apply(cfg, q, call).0;
      || OnlyOldTokens(q.leases.items, q'.leases.items)
      || (call.CallLease? && exists id :: AddsLease(q.leases.items, q'.leases.items, call.token, id))
  {
    hide ReclaimAll, LeaseNext;
    match call
    case CallLease(worker, duration, token, now) => LeasesAfterLease(cfg, q, worker, duration, token, now);
    case CallStats(now) => ReclaimAllLeases(q, q.leases.order, now);
    case _ =>
  }

  /** The new leases are safe, and a token that held no lease still holds none. */
  ghost predicate TokensKept(leases: map<string, Lease>, leases': map<string, Lease>, issued: set<string>, issued': set<string>) {
    && issued <= issued'
    && TokensOk(leases', issued')
    && forall token :: token in issued && Fenced(leases, token) ==> Fenced(leases', token)
  }

  lemma OldTokensKept(leases: map<string, Lease>, leases': map<string, Lease>, issued: set<string>, issued': set<string>)
    requires TokensOk(leases, issued) && OnlyOldTokens(leases, leases') && issued <= issued'
    ensures TokensKept(leases, leases', issued, issued')
  {}

  lemma NewTokenKept(leases: map<string, Lease>, leases': map<string, Lease>, issued: set<string>, token: string, id: string)
    requires TokensOk(leases, issued) && AddsLease(leases, leases', token, id) && token !in issued
    ensures TokensKept(leases, leases', issued, issued + {token})
  {
    assert forall x :: x in leases' && x != id ==> x in leases' - {id};
  }

  lemma NextKeepsTokens(cfg: Config, t: Trace, call: Call)
    requires TokensOk(t.queue.leases.items, t.issued) && IsFresh(cfg, t, call)
    ensures var t' := Next(cfg, t, call); TokensKept(t.queue.leases.items, t'.queue.leases.items, t.issued, t'.issued)
  {
    hide Apply, TokensKept, TokensOk, AddsLease, OnlyOldTokens;
    var t' := Next(cfg, t, call);
    LeasesAfterCall(cfg, t.queue, call);
    if OnlyOldTokens(t.queue.leases.items, t'.queue.leases.items) {
      OldTokensKept(t.queue.leases.items, t'.queue.leases.items, t.issued, t'.issued);
    } else {
      var id :| AddsLease(t.queue.leases.items, t'.queue.leases.items, call.token, id);
      NewTokenKept(t.queue.leases.items, t'.queue.leases.items, t.issued, call.token, id);
    }
  }

  lemma {:induction false} RunKeepsTokens(cfg: Config, t: Trace, calls: seq<Call>)
    requires Good(cfg, t.queue, t.log) && TokensOk(t.queue.leases.items, t.issued) && IsFreshRun(cfg, t, calls)
    ensures var t' := Run(cfg, t, calls);
      && TokensOk(t'.queue.leases.items, t'.issued)
      && forall token :: token in t.issued && Fenced(t.queue.leases.items, token) ==> Fenced(t'.queue.leases.items, token)
    decreases |calls|
  {
    hide Inv, HistoriesOk, WorkOk, TokensOk, Next, IsFresh, Fenced;
    if calls != [] {
      var t1 := Next(cfg, t, calls[0]);
      NextKeepsGood(cfg, t, calls[0]);
      NextKeepsTokens(cfg, t, calls[0]);
      RunKeepsTokens(cfg, t1, calls[1..]);
    }
  }

  /** A token whose lease is gone is refused for every job by every call, after any further run. */
  lemma {:induction false} FencedForever(cfg: Config, before: seq<Call>, after: seq<Call>, token: string, id: string)
    requires IsFreshRun(cfg, BEGIN, before) && IsFreshRun(cfg, Run(cfg, BEGIN, before), after)
    requires token in Run(cfg, BEGIN, before).issued && Fenced(Run(cfg, BEGIN, before).queue.leases.items, token)
    ensures var q := Run(cfg, Run(cfg, BEGIN, before), after).queue;
      && (forall extension, now :: Heartbeat(cfg, q, id, token, extension, now) == Outcome(q, false, []))
      && (forall result, now :: Complete(q, id, token, result, now) == Outcome(q, false, []))
      && (forall error, now :: Fail(q, id, token, error, now) == Outcome(q, false, []))
  {
    BeginGood(cfg);
    RunKeepsGood(cfg, BEGIN, before);
    RunKeepsTokens(cfg, BEGIN, before);
    RunKeepsTokens(cfg, Run(cfg, BEGIN, before), after);
  }

  /** Whatever call ends the lease of a job, its token then holds no lease at all. */
  lemma EndOfLeaseFences(cfg: Config, t: Trace, call: Call, id: string)
    requires TokensOk(t.queue.leases.items, t.issued) && IsFresh(cfg, t, call)
    requires id in t.queue.leases.items
    requires !Holds(Apply(cfg, t.queue, call).0, id, t.queue.leases.items[id].token)
    ensures Fenced(Apply(cfg, t.queue, call).0.leases.items, t.queue.leases.items[id].token)
  {
    hide Apply;
    LeasesAfterCall(cfg, t.queue, call);
    var leases, leases' := t.queue.leases.items, Apply(cfg, t.queue, call).0.leases.items;
    if !OnlyOldTokens(leases, leases') {
      var at :| AddsLease(leases, leases', call.token, at);
      assert forall x :: x in leases' && x != at ==> x in leases' - {at};
    }
  }

  // ---------------------------------------------------------------- idempotency

  ghost predicate KeysStay(q: Queue, q': Queue) {
    && q.jobs.items.Keys <= q'.jobs.items.Keys
    && forall k :: k in q.idempotency ==> k in q'.idempotency && q'.idempotency[k] == q.idempotency[k]
  }

  lemma {:induction false} ReclaimKeepsKeys(q: Queue, ids: seq<string>, now: int)
    ensures var q' := ReclaimAll(q, ids, now).queue;
      q'.idempotency == q.idempotency && q'.jobs.items.Keys == q.jobs.items.Keys
    decreases |ids|
  {
    if ids != [] {
      ReclaimKeepsKeys(ReclaimOne(q, ids[0], now).queue, ids[1..], now);
    }
  }

  lemma EnqueueKeepsKeys(cfg: Config, q: Queue, data: JobData, freshId: string, now: int)
    requires KeysOk(q)
    ensures KeysStay(q, Enqueue(cfg, q, data, freshId, now).queue)
  {}

  lemma NextKeepsKeys(cfg: Config, t: Trace, call: Call)
    requires KeysOk(t.queue)
    ensures KeysStay(t.queue, Next(cfg, t, call).queue)
  {
    hide ReclaimAll, KeysOk, Enqueue;
    match call
    case CallEnqueue(data, freshId, now) => EnqueueKeepsKeys(cfg, t.queue, data, freshId, now);
    case CallLease(_, _, _, now) => ReclaimKeepsKeys(t.queue, t.queue.leases.order, now);
    case CallStats(now) => ReclaimKeepsKeys(t.queue, t.queue.leases.order, now);
    case _ =>
  }

  lemma {:induction false} RunKeepsKeys(cfg: Config, t: Trace, calls: seq<Call>)
    requires Good(cfg, t.queue, t.log) && IsFreshRun(cfg, t, calls)
    ensures KeysStay(t.queue, Run(cfg, t, calls).queue)
    decreases |calls|
  {
    if calls != [] {
      NextKeepsKeys(cfg, t, calls[0]);
      NextKeepsGood(cfg, t, calls[0]);
      hide Good, Next, IsFresh;
      RunKeepsKeys(cfg, Next(cfg, t, calls[0]), calls[1..]);
    }
  }

  /** Once a key is taken, every later submission under it is answered with the same job, whatever
      happened in between, and changes nothing. */
  lemma {:induction false} ResubmissionIsDuplicate(cfg: Config, before: seq<Call>, after: seq<Call>, data: JobData, freshId: string, now: int)
    requires IsFreshRun(cfg, BEGIN, before) && IsFreshRun(cfg, Run(cfg, BEGIN, before), after)
    requires KeyOf(data).Some? && KeyOf(data).value in Run(cfg, BEGIN, before).queue.idempotency
    ensures var q0 := Run(cfg, BEGIN, before).queue;
      var q := Run(cfg, Run(cfg, BEGIN, before), after).queue;
      var id := q0.idempotency[KeyOf(data).value];
      && id in q.jobs.items
      && q.jobs.items[id].id == id
      && Enqueue(cfg, q, data, freshId, now) == Outcome(q, Duplicate(q.jobs.items[id]), [])
  {
    BeginGood(cfg);
    RunKeepsGood(cfg, BEGIN, before);
    RunKeepsGood(cfg, Run(cfg, BEGIN, before), after);
    RunKeepsKeys(cfg, Run(cfg, BEGIN, before), after);
  }
}

/** The asynchronous calls of packages/queue/src/redis-queue-adapter.js. Every `sendCommand` is one
    atomic step on the shared Redis store; any number of producers and workers take their steps in any
    order, and lease and idempotency keys may expire at any time. */
module RedisSteps {
  import opened Collections
  import opened JobStates
  import opened QueueModel

  /** The keys of one prefix. Position 0 of `waiting` is the left end of the Redis list. */
  datatype Store = Store(jobs: map<string, Job>, waiting: seq<string>, leases: map<string, Lease>, keys: map<string, string>)

  // ---------------------------------------------------------------- producers: enqueue

  datatype ProducerPc =
    | CheckKey
    | ReadExisting(existing: string)
    | ReadDepth
    | WriteJob(job: Job)
    | PushJob(job: Job)
    | WriteKey(job: Job)
    | Answered(answer: EnqueueResult)

  datatype Producer = Producer(data: JobData, freshId: string, pc: ProducerPc) {
    function Id(): string {
      IdOf(data, freshId)
    }
  }

  function ProducerStep(cfg: Config, st: Store, p: Producer, now: int): (Store, ProducerPc) {
    match p.pc
    case CheckKey =>
      var key := KeyOf(p.data);
      if key.Some? && key.value in st.keys && st.keys[key.value] != "" then (st, ReadExisting(st.keys[key.value]))
      else (st, ReadDepth)
    case ReadExisting(id) =>
      if id in st.jobs then (st, Answered(Duplicate(st.jobs[id]))) else (st, ReadDepth)
    case ReadDepth =>
      if |st.waiting| >= cfg.maxQueueDepth then (st, Answered(BackpressureExceeded))
      else (st, WriteJob(NewJob(cfg, p.data, p.freshId, now)))
    case WriteJob(job) =>
      (st.(jobs := st.jobs[job.id := job]), PushJob(job))
    case PushJob(job) =>
      (st.(waiting := [job.id] + st.waiting), if job.key.Some? then WriteKey(job) else Answered(Accepted(job)))
    case WriteKey(job) =>
      (if job.key.Some? then st.(keys := st.keys[job.key.value := job.id]) else st, Answered(Accepted(job)))
    case Answered(_) => (st, p.pc)
  }

  // ---------------------------------------------------------------- workers: lease, complete, fail

  /** `read` is the job record as fetched by the call's GET. */
  datatype Worker =
    | Idle
    | Popped(id: string)
    | Claiming(id: string, read: Job, lease: Lease)
    | Leasing(id: string, lease: Lease)
    | Holding(id: string, token: string)
    | CompleteReading(id: string, token: string)
    | CompleteWriting(id: string, token: string, read: Job)
    | CompleteUnleasing(id: string, token: string)
    | FailUnleasing(id: string, token: string, read: Job)
    | RequeueWriting(id: string, read: Job)
    | RequeuePushing(id: string)
    | FailWriting(id: string, read: Job)

  /** What a worker brings to its next step: a new token, and whether it completes or fails what it holds. */
  datatype Input = Input(worker: string, duration: Option<int>, token: string, completes: bool, result: string, error: JobError, now: int)

  function WorkerStep(cfg: Config, st: Store, w: Worker, x: Input): (Store, Worker) {
    match w
    case Idle =>
      if st.waiting == [] then (st, Idle)
      else
        var id := st.waiting[|st.waiting| - 1];
        (st.(waiting := st.waiting[..|st.waiting| - 1]), if id == "" then Idle else Popped(id))
    case Popped(id) =>
      if id !in st.jobs || st.jobs[id].state != Queued then (st, Idle)
      else
        var ms := OrDefault(x.duration, cfg.defaultLeaseMs);
        (st, Claiming(id, st.jobs[id], Lease(x.token, x.worker, x.now + ms, ms)))
    case Claiming(id, read, lease) =>
      var job := read.(state := Running, attempts := read.attempts + 1, updatedAt := x.now);
      (st.(jobs := st.jobs[id := job]), Leasing(id, lease))
    case Leasing(id, lease) =>
      (st.(leases := st.leases[id := lease]), Holding(id, lease.token))
    case Holding(id, token) =>
      if x.completes then
        if id in st.leases && st.leases[id].token == token then (st, CompleteReading(id, token)) else (st, w)
      else
        if id in st.jobs then (st, FailUnleasing(id, token, st.jobs[id])) else (st, w)
    case CompleteReading(id, token) =>
      if id in st.jobs && IsValidTransition(st.jobs[id].state, Completed) then (st, CompleteWriting(id, token, st.jobs[id]))
      else (st, Holding(id, token))
    case CompleteWriting(id, token, read) =>
      (st.(jobs := st.jobs[id := read.(state := Completed, result := Some(x.result), updatedAt := x.now)]), CompleteUnleasing(id, token))
    case CompleteUnleasing(id, token) =>
      (st.(leases := st.leases - {id}), Idle)
    case FailUnleasing(id, token, read) =>
      (st.(leases := st.leases - {id}),
       if read.attempts < read.maxRetries then RequeueWriting(id, read) else FailWriting(id, read))
    case RequeueWriting(id, read) =>
      (st.(jobs := st.jobs[id := read.(state := Queued, updatedAt := x.now)]), RequeuePushing(id))
    case RequeuePushing(id) =>
      (st.(waiting := st.waiting + [id]), Idle)
    case FailWriting(id, read) =>
      (st.(jobs := st.jobs[id := read.(state := Failed, error := Some(x.error), updatedAt := x.now)]), Idle)
  }

  // ---------------------------------------------------------------- the system

  datatype System = System(cfg: Config, store: Store, producers: seq<Producer>, workers: seq<Worker>)

  datatype Action =
    | Produce(index: nat, now: int)
    | Work(index: nat, input: Input)
    | ExpireLease(id: string)
    | ExpireKey(key: string)

  function Step(s: System, a: Action): System {
    match a
    case Produce(i, now) =>
      if i >= |s.producers| then s
      else
        var (st, pc) := ProducerStep(s.cfg, s.store, s.producers[i], now);
        s.(store := st, producers := s.producers[i := s.producers[i].(pc := pc)])
    case Work(i, x) =>
      if i >= |s.workers| then s
      else
        var (st, w) := WorkerStep(s.cfg, s.store, s.workers[i], x);
        s.(store := st, workers := s.workers[i := w])
    case ExpireLease(id) => s.(store := s.store.(leases := s.store.leases - {id}))
    case ExpireKey(key) => s.(store := s.store.(keys := s.store.keys - {key}))
  }

  function Run(s: System, actions: seq<Action>): System
    decreases |actions|
  {
    if actions == [] then s else Run(Step(s, actions[0]), actions[1..])
  }

  /** An empty store, producers about to submit, idle workers. */
  ghost predicate IsInitial(s: System) {
    && s.store == Store(map[], [], map[], map[])
    && (forall i :: 0 <= i < |s.producers| ==> s.producers[i].pc == CheckKey)
    && (forall i :: 0 <= i < |s.workers| ==> s.workers[i] == Idle)
  }

  /** Submissions use different, non-empty job ids. */
  ghost predicate HasFreshIds(s: System) {
    && (forall i :: 0 <= i < |s.producers| ==> s.producers[i].Id() != "")
    && (forall i, j :: 0 <= i < j < |s.producers| ==> s.producers[i].Id() != s.producers[j].Id())
  }

  // ---------------------------------------------------------------- where a job is

  /** The job a worker is responsible for. */
  function InHand(w: Worker): Option<string> {
    match w
    case Idle => None
    case CompleteUnleasing(_, _) => None
    case _ => Some(w.id)
  }

  /** The lease a worker believes to hold: job id and token. */
  function LeaseOf(w: Worker): Option<(string, string)> {
    match w
    case Holding(id, token) => Some((id, token))
    case CompleteReading(id, token) => Some((id, token))
    case CompleteWriting(id, token, _) => Some((id, token))
    case CompleteUnleasing(id, token) => Some((id, token))
    case FailUnleasing(id, token, _) => Some((id, token))
    case _ => None
  }

  predicate IsSettled(job: Job) {
    job.state == Completed || job.state == Failed
  }

  /** The submission's job is in the waiting list or beyond. */
  predicate IsPushed(p: Producer) {
    p.pc.WriteKey? || (p.pc.Answered? && p.pc.answer.Accepted?)
  }

  ghost predicate WorkerOk(jobs: map<string, Job>, w: Worker) {
    match w
    case Idle => true
    case Popped(id) => id in jobs && jobs[id].state == Queued
    case Claiming(id, read, _) => id in jobs && jobs[id] == read && read.state == Queued
    case Leasing(id, _) => id in jobs && jobs[id].state == Running
    case Holding(id, _) => id in jobs && jobs[id].state == Running
    case CompleteReading(id, _) => id in jobs && jobs[id].state == Running
    case CompleteWriting(id, _, read) => id in jobs && jobs[id] == read && read.state == Running
    case CompleteUnleasing(id, _) => id in jobs && IsSettled(jobs[id])
    case FailUnleasing(id, _, read) => id in jobs && jobs[id] == read && read.state == Running
    case RequeueWriting(id, read) => id in jobs && jobs[id] == read && read.state == Running && read.attempts < read.maxRetries
    case RequeuePushing(id) => id in jobs && jobs[id].state == Queued
    case FailWriting(id, read) => id in jobs && jobs[id] == read && read.state == Running && read.attempts >= read.maxRetries
  }

  ghost predicate ProducerOk(st: Store, p: Producer) {
    && (!IsPushed(p) ==> p.Id() !in st.waiting)
    && (!IsPushed(p) && !p.pc.PushJob? ==> p.Id() !in st.jobs)
    && (p.pc.WriteJob? || p.pc.PushJob? || p.pc.WriteKey? ==>
          p.pc.job.id == p.Id() && p.pc.job.state == Queued && p.pc.job.key == KeyOf(p.data))
    && (p.pc.PushJob? ==> p.Id() in st.jobs && st.jobs[p.Id()] == p.pc.job)
    && (p.pc.WriteKey? ==> p.Id() in st.jobs && st.jobs[p.Id()].key == p.pc.job.key)
  }

  ghost predicate WaitingOk(st: Store) {
    && NoDup(st.waiting)
    && forall id :: id in st.waiting ==> id != "" && id in st.jobs && st.jobs[id].state == Queued
  }

  ghost predicate IsHeld(workers: seq<Worker>, id: string) {
    exists i :: 0 <= i < |workers| && InHand(workers[i]) == Some(id)
  }

  ghost predicate InFlight(producers: seq<Producer>, id: string) {
    exists i :: 0 <= i < |producers| && producers[i].pc.PushJob? && producers[i].Id() == id
  }

  ghost predicate HasLease(workers: seq<Worker>, id: string, token: string) {
    exists i :: 0 <= i < |workers| && LeaseOf(workers[i]) == Some((id, token))
  }

  /** No two workers have one job in their hands. */
  ghost predicate HandsDiffer(s: System) {
    forall i, j :: 0 <= i < j < |s.workers| && InHand(s.workers[i]).Some? ==> InHand(s.workers[i]) != InHand(s.workers[j])
  }

  /** A job in a worker's hands is not waiting, and not still being submitted. */
  ghost predicate HandsApart(s: System) {
    && (forall i :: 0 <= i < |s.workers| && InHand(s.workers[i]).Some? ==> InHand(s.workers[i]).value !in s.store.waiting)
    && (forall i, j :: 0 <= i < |s.workers| && 0 <= j < |s.producers| && !IsPushed(s.producers[j]) ==>
          InHand(s.workers[i]) != Some(s.producers[j].Id()))
  }

  /** No job is lost. */
  ghost predicate Placed(s: System) {
    forall id :: id in s.store.jobs ==>
      IsSettled(s.store.jobs[id]) || id in s.store.waiting || IsHeld(s.workers, id) || InFlight(s.producers, id)
  }

  /** Everything but that workers have different jobs in their hands. */
  ghost predicate CallsInv(s: System) {
    && HasFreshIds(s)
    && "" !in s.store.jobs
    && WaitingOk(s.store)
    && (forall i :: 0 <= i < |s.workers| ==> WorkerOk(s.store.jobs, s.workers[i]))
    && (forall i :: 0 <= i < |s.producers| ==> ProducerOk(s.store, s.producers[i]))
    && HandsApart(s)
    && Placed(s)
    && (forall id :: id in s.store.leases ==> HasLease(s.workers, id, s.store.leases[id].token))
  }

  ghost predicate SystemInv(s: System) {
    CallsInv(s) && HandsDiffer(s)
  }

  lemma InitialInv(s: System)
    requires IsInitial(s) && HasFreshIds(s)
    ensures SystemInv(s)
  {}

  // ---------------------------------------------------------------- producer steps

  lemma ProduceKeepsInv(s: System, i: nat, now: int)
    requires SystemInv(s)
    ensures SystemInv(Step(s, Produce(i, now)))
  {
    if i < |s.producers| {
      match s.producers[i].pc
      case WriteJob(job) => WriteJobKeepsInv(s, i, now);
      case PushJob(job) => PushJobKeepsInv(s, i, now);
      case _ => QuietProduceKeepsInv(s, i, now);
    }
  }

  lemma QuietProduceKeepsInv(s: System, i: nat, now: int)
    requires SystemInv(s) && i < |s.producers|
    requires !s.producers[i].pc.WriteJob? && !s.producers[i].pc.PushJob?
    ensures SystemInv(Step(s, Produce(i, now)))
  {
    var s' := Step(s, Produce(i, now));
    QuietProducer(s.cfg, s.store, s.producers[i], now);
    assert s'.producers[i].Id() == s.producers[i].Id();
    assert forall j :: 0 <= j < |s.producers| && j != i ==> s'.producers[j] == s.producers[j];
    hide ProducerOk, WorkerOk, WaitingOk, ProducerStep;
    forall j | 0 <= j < |s'.producers| ensures ProducerOk(s'.store, s'.producers[j]) {
      OtherKeysDoNotMatter(s.store, s'.store, s.producers[j]);
    }
    FlightStays(s, s');
    assert s'.store.jobs == s.store.jobs && s'.store.waiting == s.store.waiting && s'.workers == s.workers;
    assert WaitingOk(s'.store) by { SameLine(s.store, s'.store); }
  }

  lemma SameLine(st: Store, st': Store)
    requires WaitingOk(st) && st'.jobs == st.jobs && st'.waiting == st.waiting
    ensures WaitingOk(st')
  {}

  lemma OtherKeysDoNotMatter(st: Store, st': Store, p: Producer)
    requires ProducerOk(st, p) && st'.jobs == st.jobs && st'.waiting == st.waiting
    ensures ProducerOk(st', p)
  {}

  lemma QuietProducer(cfg: Config, st: Store, p: Producer, now: int)
    requires !p.pc.WriteJob? && !p.pc.PushJob? && ProducerOk(st, p)
    ensures var (st', pc) := ProducerStep(cfg, st, p, now);
      && st'.jobs == st.jobs && st'.waiting == st.waiting && st'.leases == st.leases
      && (IsPushed(p.(pc := pc)) <==> IsPushed(p)) && !pc.PushJob?
      && ProducerOk(st', p.(pc := pc))
  {}

  lemma FlightStays(s: System, s': System)
    requires |s'.producers| == |s.producers|
    requires forall j :: 0 <= j < |s.producers| && s.producers[j].pc.PushJob? ==> s'.producers[j] == s.producers[j]
    ensures forall id :: InFlight(s.producers, id) ==> InFlight(s'.producers, id)
  {
    forall id | InFlight(s.producers, id) ensures InFlight(s'.producers, id) {
      var j :| 0 <= j < |s.producers| && s.producers[j].pc.PushJob? && s.producers[j].Id() == id;
      assert s'.producers[j] == s.producers[j];
    }
  }

  /** Submitting changes neither other producers nor any worker. */
  lemma SubmitFrame(s: System, i: nat, now: int)
    requires i < |s.producers|
    ensures var s' := Step(s, Produce(i, now));
      && s'.workers == s.workers && s'.cfg == s.cfg && |s'.producers| == |s.producers|
      && (forall j :: 0 <= j < |s.producers| && j != i ==> s'.producers[j] == s.producers[j])
      && s'.producers[i].Id() == s.producers[i].Id() && s'.store.leases == s.store.leases
  {}

  lemma OthersStayInFlight(s: System, s': System, i: nat, id: string)
    requires i < |s.producers| && |s'.producers| == |s.producers| && id != s.producers[i].Id()
    requires forall j :: 0 <= j < |s.producers| && j != i ==> s'.producers[j] == s.producers[j]
    ensures InFlight(s.producers, id) ==> InFlight(s'.producers, id)
  {
    if InFlight(s.producers, id) {
      var j :| 0 <= j < |s.producers| && s.producers[j].pc.PushJob? && s.producers[j].Id() == id;
      assert s'.producers[j] == s.producers[j];
    }
  }

  lemma WriteJobKeepsInv(s: System, i: nat, now: int)
    requires SystemInv(s) && i < |s.producers| && s.producers[i].pc.WriteJob?
    ensures SystemInv(Step(s, Produce(i, now)))
  {
    var s' := Step(s, Produce(i, now));
    var id := s.producers[i].Id();
    SubmitFrame(s, i, now);
    assert ProducerOk(s.store, s.producers[i]);
    assert s'.store == s.store.(jobs := s.store.jobs[id := s.producers[i].pc.job]) && s'.producers[i].pc.PushJob?;
    hide ProducerStep, WorkerStep, Step;
    assert InFlight(s'.producers, id);
    assert Placed(s') by {
      forall x | x in s.store.jobs && x != id ensures InFlight(s.producers, x) ==> InFlight(s'.producers, x) {
        OthersStayInFlight(s, s', i, x);
      }
      hide HandsApart, HandsDiffer, WaitingOk, InFlight, IsHeld, HasLease, ProducerOk;
    }
    hide Placed, IsHeld, InFlight, HasLease;
  }

  lemma PushJobKeepsInv(s: System, i: nat, now: int)
    requires SystemInv(s) && i < |s.producers| && s.producers[i].pc.PushJob?
    ensures SystemInv(Step(s, Produce(i, now)))
  {
    var s' := Step(s, Produce(i, now));
    var id := s.producers[i].Id();
    SubmitFrame(s, i, now);
    assert ProducerOk(s.store, s.producers[i]);
    assert s'.store == s.store.(waiting := [id] + s.store.waiting) && IsPushed(s'.producers[i]);
    assert ProducerOk(s'.store, s'.producers[i]);
    hide ProducerStep, WorkerStep, Step;
    NoDupConcat([id], s.store.waiting);
    assert forall x :: x in s'.store.waiting <==> x == id || x in s.store.waiting;
    assert Placed(s') by {
      forall x | x in s.store.jobs && x != id ensures InFlight(s.producers, x) ==> InFlight(s'.producers, x) {
        OthersStayInFlight(s, s', i, x);
      }
      hide HandsApart, HandsDiffer, WaitingOk, InFlight, IsHeld, HasLease, ProducerOk;
    }
    assert HandsApart(s') by { hide WaitingOk, Placed, WorkerOk, IsHeld, InFlight, HasLease; }
    hide Placed, HandsApart, IsHeld, InFlight, HasLease;
  }

  // ---------------------------------------------------------------- worker steps

  lemma OthersStayHeld(workers: seq<Worker>, i: nat, w: Worker)
    requires i < |workers|
    ensures forall id :: IsHeld(workers, id) && InHand(workers[i]) != Some(id) ==> IsHeld(workers[i := w], id)
    ensures forall id, token :: HasLease(workers, id, token) && LeaseOf(workers[i]) != Some((id, token)) ==> HasLease(workers[i := w], id, token)
    ensures InHand(w).Some? ==> IsHeld(workers[i := w], InHand(w).value)
    ensures LeaseOf(w).Some? ==> HasLease(workers[i := w], LeaseOf(w).value.0, LeaseOf(w).value.1)
  {
    var workers' := workers[i := w];
    assert workers'[i] == w;
    forall id | IsHeld(workers, id) && InHand(workers[i]) != Some(id) ensures IsHeld(workers', id) {
      var j :| 0 <= j < |workers| && InHand(workers[j]) == Some(id);
      assert workers'[j] == workers[j];
    }
    forall id, token | HasLease(workers, id, token) && LeaseOf(workers[i]) != Some((id, token)) ensures HasLease(workers', id, token) {
      var j :| 0 <= j < |workers| && LeaseOf(workers[j]) == Some((id, token));
      assert workers'[j] == workers[j];
    }
  }

  /** A worker's step concerns only the job in its hands. */
  ghost predicate Touches(st: Store, st': Store, id: string) {
    && (forall x :: x != id ==> (x in st'.jobs <==> x in st.jobs))
    && (forall x :: x != id && x in st.jobs ==> st'.jobs[x] == st.jobs[x])
    && (id in st.jobs ==> id in st'.jobs && st'.jobs[id].key == st.jobs[id].key)
    && (forall x :: x != id ==> (x in st'.leases <==> x in st.leases))
    && (forall x :: x != id && x in st.leases ==> st'.leases[x] == st.leases[x])
  }

  /** The worker's own job after its step: still in its hands, or settled. */
  ghost predicate HandsOver(st': Store, w': Worker, id: string) {
    && id in st'.jobs
    && (InHand(w') == Some(id) || (InHand(w') == None && IsSettled(st'.jobs[id])))
    && WorkerOk(st'.jobs, w')
    && (id in st'.leases ==> LeaseOf(w') == Some((id, st'.leases[id].token)))
  }

  lemma HandTouches(cfg: Config, st: Store, w: Worker, x: Input)
    requires InHand(w).Some? && !w.RequeuePushing?
    requires WorkerOk(st.jobs, w)
    ensures WorkerStep(cfg, st, w, x).0.waiting == st.waiting
    ensures Touches(st, WorkerStep(cfg, st, w, x).0, InHand(w).value)
  {}

  lemma HandOver(cfg: Config, st: Store, w: Worker, x: Input)
    requires InHand(w).Some? && !w.RequeuePushing?
    requires WorkerOk(st.jobs, w)
    requires InHand(w).value in st.leases ==> LeaseOf(w) == Some((InHand(w).value, st.leases[InHand(w).value].token))
    ensures HandsOver(WorkerStep(cfg, st, w, x).0, WorkerStep(cfg, st, w, x).1, InHand(w).value)
  {}

  /** A lease key on the job in a worker's hands carries that worker's token. */
  lemma LeaseIsMine(s: System, i: nat)
    requires SystemInv(s) && i < |s.workers| && InHand(s.workers[i]).Some?
    ensures var id := InHand(s.workers[i]).value;
      id in s.store.leases ==> LeaseOf(s.workers[i]) == Some((id, s.store.leases[id].token))
  {
    var id := InHand(s.workers[i]).value;
    if id in s.store.leases {
      var token := s.store.leases[id].token;
      assert HasLease(s.workers, id, token);
      var j :| 0 <= j < |s.workers| && LeaseOf(s.workers[j]) == Some((id, token));
      assert WorkerOk(s.store.jobs, s.workers[j]) && WorkerOk(s.store.jobs, s.workers[i]);
      if InHand(s.workers[j]).None? { assert false; }
    }
  }

  lemma HandKeepsInv(s: System, i: nat, x: Input)
    requires SystemInv(s) && i < |s.workers| && InHand(s.workers[i]).Some? && !s.workers[i].RequeuePushing?
    ensures SystemInv(Step(s, Work(i, x)))
  {
    var s' := Step(s, Work(i, x));
    var id := InHand(s.workers[i]).value;
    LeaseIsMine(s, i);
    HandTouches(s.cfg, s.store, s.workers[i], x);
    HandOver(s.cfg, s.store, s.workers[i], x);
    hide Touches, HandsOver, WorkerStep;
    OthersStayHeld(s.workers, i, s'.workers[i]);
    assert s'.workers == s.workers[i := s'.workers[i]] && s'.producers == s.producers;
    HandKeepsOthers(s, s', i, id);
    HandKeepsPlaces(s, s', i, id);
  }

  /** Workers and producers with other jobs do not notice. */
  lemma HandKeepsOthers(s: System, s': System, i: nat, id: string)
    requires SystemInv(s) && i < |s.workers| && InHand(s.workers[i]) == Some(id)
    requires s'.cfg == s.cfg && s'.producers == s.producers && |s'.workers| == |s.workers|
    requires s'.workers == s.workers[i := s'.workers[i]]
    requires s'.store.waiting == s.store.waiting
    requires Touches(s.store, s'.store, id) && HandsOver(s'.store, s'.workers[i], id)
    ensures WaitingOk(s'.store) && HandsApart(s') && HandsDiffer(s')
    ensures forall j :: 0 <= j < |s'.workers| ==> WorkerOk(s'.store.jobs, s'.workers[j])
    ensures forall j :: 0 <= j < |s'.producers| ==> ProducerOk(s'.store, s'.producers[j])
  {
    assert WorkerOk(s.store.jobs, s.workers[i]);
    forall j | 0 <= j < |s'.workers| ensures WorkerOk(s'.store.jobs, s'.workers[j]) {
      if j != i {
        assert WorkerOk(s.store.jobs, s.workers[j]);
        if s.workers[j].CompleteUnleasing? && s.workers[j].id == id { assert false; }
      }
    }
    forall j | 0 <= j < |s'.producers| ensures ProducerOk(s'.store, s'.producers[j]) {
      assert ProducerOk(s.store, s.producers[j]);
    }
  }

  lemma HandKeepsPlaces(s: System, s': System, i: nat, id: string)
    requires SystemInv(s) && i < |s.workers| && InHand(s.workers[i]) == Some(id)
    requires s'.cfg == s.cfg && s'.producers == s.producers && |s'.workers| == |s.workers|
    requires s'.workers == s.workers[i := s'.workers[i]]
    requires s'.store.waiting == s.store.waiting
    requires Touches(s.store, s'.store, id) && HandsOver(s'.store, s'.workers[i], id)
    ensures Placed(s')
    ensures forall x :: x in s'.store.leases ==> HasLease(s'.workers, x, s'.store.leases[x].token)
  {
    OthersStayHeld(s.workers, i, s'.workers[i]);
    forall x | x in s'.store.leases ensures HasLease(s'.workers, x, s'.store.leases[x].token) {
      if x != id {
        assert HasLease(s.workers, x, s.store.leases[x].token);
        assert LeaseOf(s.workers[i]).Some? ==> LeaseOf(s.workers[i]).value.0 == id;
      }
    }
  }

  lemma PopKeepsInv(s: System, i: nat, x: Input)
    requires SystemInv(s) && i < |s.workers| && s.workers[i] == Idle
    ensures SystemInv(Step(s, Work(i, x)))
  {
    if s.store.waiting != [] {
      var n := |s.store.waiting| - 1;
      var id := s.store.waiting[n];
      var s' := Step(s, Work(i, x));
      assert id in s.store.waiting && s'.workers[i] == Popped(id);
      assert s.store.waiting == s'.store.waiting + [id];
      assert id !in s'.store.waiting;
      assert NoDup(s'.store.waiting);
      assert forall x :: x in s.store.waiting <==> x in s'.store.waiting || x == id;
      OthersStayHeld(s.workers, i, Popped(id));
    } else {
      assert Step(s, Work(i, x)).workers == s.workers;
    }
  }

  lemma RequeuePushKeepsInv(s: System, i: nat, x: Input)
    requires SystemInv(s) && i < |s.workers| && s.workers[i].RequeuePushing?
    ensures SystemInv(Step(s, Work(i, x)))
  {
    var s' := Step(s, Work(i, x));
    var id := s.workers[i].id;
    assert WorkerOk(s.store.jobs, s.workers[i]);
    NoDupConcat(s.store.waiting, [id]);
    OthersStayHeld(s.workers, i, Idle);
  }

  lemma UnleaseKeepsInv(s: System, i: nat, x: Input)
    requires SystemInv(s) && i < |s.workers| && s.workers[i].CompleteUnleasing?
    ensures SystemInv(Step(s, Work(i, x)))
  {
    OthersStayHeld(s.workers, i, Idle);
  }

  lemma WorkKeepsInv(s: System, i: nat, x: Input)
    requires SystemInv(s)
    ensures SystemInv(Step(s, Work(i, x)))
  {
    hide SystemInv, Step;
    if i < |s.workers| {
      match s.workers[i]
      case Idle => PopKeepsInv(s, i, x);
      case CompleteUnleasing(_, _) => UnleaseKeepsInv(s, i, x);
      case RequeuePushing(_) => RequeuePushKeepsInv(s, i, x);
      case _ => HandKeepsInv(s, i, x);
    } else {
      OutOfRange(s, i, x);
    }
  }

  lemma OutOfRange(s: System, i: nat, x: Input)
    requires i >= |s.workers|
    ensures Step(s, Work(i, x)) == s
  {}

  lemma ExpireKeepsInv(s: System, a: Action)
    requires SystemInv(s) && (a.ExpireLease? || a.ExpireKey?)
    ensures SystemInv(Step(s, a))
  {}
}

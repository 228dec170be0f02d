/** What holds in every interleaving of the asynchronous Redis adapter. */
module RedisRuns {
  import opened Collections
  import opened JobStates
  import opened QueueModel
  import opened RedisSteps

  lemma StepKeepsInv(s: System, a: Action)
    requires SystemInv(s)
    ensures SystemInv(Step(s, a))
  {
    hide SystemInv, Step;
    match a
    case Produce(i, now) => ProduceKeepsInv(s, i, now);
    case Work(i, x) => WorkKeepsInv(s, i, x);
    case _ => ExpireKeepsInv(s, a);
  }

  lemma {:induction false} RunKeepsInv(s: System, actions: seq<Action>)
    requires SystemInv(s)
    ensures SystemInv(Run(s, actions))
    decreases |actions|
  {
    hide SystemInv, Step;
    if actions != [] {
      StepKeepsInv(s, actions[0]);
      RunKeepsInv(Step(s, actions[0]), actions[1..]);
    }
  }

  // ---------------------------------------------------------------- every job is in exactly one place

  ghost predicate Settled(s: System, id: string) {
    id in s.store.jobs && IsSettled(s.store.jobs[id])
  }

  /** In every interleaving, every job is exactly one of: still being submitted, waiting, in a worker's
      hands, or settled. It waits at most once and in at most one worker's hands. */
  lemma EveryJobInOnePlace(start: System, actions: seq<Action>, id: string)
    requires IsInitial(start) && HasFreshIds(start)
    requires id in Run(start, actions).store.jobs
    ensures var s := Run(start, actions);
      && (InFlight(s.producers, id) || id in s.store.waiting || IsHeld(s.workers, id) || Settled(s, id))
      && !(InFlight(s.producers, id) && id in s.store.waiting)
      && !(InFlight(s.producers, id) && IsHeld(s.workers, id))
      && !(InFlight(s.producers, id) && Settled(s, id))
      && !(id in s.store.waiting && IsHeld(s.workers, id))
      && !(id in s.store.waiting && Settled(s, id))
      && !(IsHeld(s.workers, id) && Settled(s, id))
      && NoDup(s.store.waiting)
      && forall i, j :: 0 <= i < |s.workers| && 0 <= j < |s.workers| && InHand(s.workers[i]) == InHand(s.workers[j]) == Some(id) ==> i == j
  {
    InitialInv(start);
    RunKeepsInv(start, actions);
    hide *;
    PlacesExclude(Run(start, actions), id);
  }

  lemma PlacesExclude(s: System, id: string)
    requires SystemInv(s) && id in s.store.jobs
    ensures InFlight(s.producers, id) || id in s.store.waiting || IsHeld(s.workers, id) || Settled(s, id)
    ensures !(InFlight(s.producers, id) && id in s.store.waiting)
    ensures !(InFlight(s.producers, id) && IsHeld(s.workers, id))
    ensures !(InFlight(s.producers, id) && Settled(s, id))
    ensures !(id in s.store.waiting && IsHeld(s.workers, id))
    ensures !(id in s.store.waiting && Settled(s, id))
    ensures !(IsHeld(s.workers, id) && Settled(s, id))
    ensures NoDup(s.store.waiting)
    ensures forall i, j :: 0 <= i < |s.workers| && 0 <= j < |s.workers| && InHand(s.workers[i]) == InHand(s.workers[j]) == Some(id) ==> i == j
  {
    forall i | 0 <= i < |s.workers| && InHand(s.workers[i]) == Some(id) ensures !IsSettled(s.store.jobs[id]) {
      assert WorkerOk(s.store.jobs, s.workers[i]);
    }
    forall i | 0 <= i < |s.producers| && s.producers[i].pc.PushJob? && s.producers[i].Id() == id
      ensures !IsSettled(s.store.jobs[id]) && id !in s.store.waiting
    {
      assert ProducerOk(s.store, s.producers[i]);
    }
  }

  // ---------------------------------------------------------------- no lost update

  /** The record a worker read before its pending write. */
  function ReadRecord(w: Worker): Option<Job> {
    match w
    case Claiming(_, read, _) => Some(read)
    case CompleteWriting(_, _, read) => Some(read)
    case FailUnleasing(_, _, read) => Some(read)
    case RequeueWriting(_, read) => Some(read)
    case FailWriting(_, read) => Some(read)
    case _ => None
  }

  /** Although a GET and the SET that follows it are separate steps, no write falls between them: the stored
      record is still the one read. A popped id is always found QUEUED, and a lease key on a held job
      carries its holder's token. */
  lemma NoLostUpdate(start: System, actions: seq<Action>, i: nat)
    requires IsInitial(start) && HasFreshIds(start)
    requires i < |Run(start, actions).workers|
    ensures var s := Run(start, actions); var w := s.workers[i];
      && (ReadRecord(w).Some? ==> w.id in s.store.jobs && s.store.jobs[w.id] == ReadRecord(w).value)
      && (w.Popped? ==> w.id in s.store.jobs && s.store.jobs[w.id].state == Queued)
      && (InHand(w).Some? && InHand(w).value in s.store.leases ==>
            LeaseOf(w) == Some((InHand(w).value, s.store.leases[InHand(w).value].token)))
  {
    InitialInv(start);
    RunKeepsInv(start, actions);
    var s := Run(start, actions);
    assert WorkerOk(s.store.jobs, s.workers[i]);
    if InHand(s.workers[i]).Some? {
      LeaseIsMine(s, i);
    }
  }

  // ---------------------------------------------------------------- legal changes, settled for good

  /** What one step may do to one job record. */
  ghost predicate LegalRewrite(before: Job, after: Job) {
    || after == before
    || (&& IsValidTransition(before.state, after.state)
        && !IsTerminal(before.state)
        && before.state != after.state
        && after.id == before.id && after.key == before.key && after.maxRetries == before.maxRetries
        && after.attempts == before.attempts + (if after.state == Running then 1 else 0)
        && (after.state == Queued ==> before.attempts < before.maxRetries)
        && (after.state == Failed ==> before.attempts >= before.maxRetries))
  }

  lemma WorkIsLegal(cfg: Config, st: Store, w: Worker, x: Input)
    requires WorkerOk(st.jobs, w)
    ensures var st' := WorkerStep(cfg, st, w, x).0;
      st'.jobs == st.jobs || (InHand(w).Some? && InHand(w).value in st.jobs && InHand(w).value in st'.jobs
        && LegalRewrite(st.jobs[InHand(w).value], st'.jobs[InHand(w).value])
        && st'.jobs == st.jobs[InHand(w).value := st'.jobs[InHand(w).value]])
  {}

  lemma StepIsLegal(s: System, a: Action)
    requires SystemInv(s)
    ensures forall id :: id in s.store.jobs ==>
              id in Step(s, a).store.jobs && LegalRewrite(s.store.jobs[id], Step(s, a).store.jobs[id])
  {
    match a
    case Produce(i, now) =>
      if i < |s.producers| { assert ProducerOk(s.store, s.producers[i]); }
    case Work(i, x) =>
      if i < |s.workers| {
        assert WorkerOk(s.store.jobs, s.workers[i]);
        hide SystemInv, WorkerStep;
        WorkIsLegal(s.cfg, s.store, s.workers[i], x);
      }
    case _ =>
  }

  /** A settled job is never touched again, whatever producers and workers do. */
  lemma {:induction false} SettledForever(s: System, actions: seq<Action>, id: string)
    requires SystemInv(s) && Settled(s, id)
    ensures Settled(Run(s, actions), id)
    ensures Run(s, actions).store.jobs[id] == s.store.jobs[id]
    decreases |actions|
  {
    if actions != [] {
      StepIsLegal(s, actions[0]);
      StepKeepsInv(s, actions[0]);
      hide SystemInv, Step;
      SettledForever(Step(s, actions[0]), actions[1..], id);
    }
  }

  /** No job is attempted more than max(1, maxRetries) times. */
  ghost predicate AttemptsOk(s: System) {
    && (forall id :: id in s.store.jobs ==> WithinAttempts(s.cfg, s.store.jobs[id]))
    && (forall i :: 0 <= i < |s.producers| && (s.producers[i].pc.WriteJob? || s.producers[i].pc.PushJob?) ==>
          WithinAttempts(s.cfg, s.producers[i].pc.job))
  }

  predicate WithinAttempts(cfg: Config, job: Job) {
    && job.maxRetries == cfg.maxRetries
    && job.attempts <= Max(1, cfg.maxRetries)
    && (job.state == Queued ==> job.attempts < Max(1, cfg.maxRetries))
  }

  lemma StepKeepsAttempts(s: System, a: Action)
    requires SystemInv(s) && AttemptsOk(s)
    ensures AttemptsOk(Step(s, a))
  {
    StepIsLegal(s, a);
    hide SystemInv;
    forall id | id in Step(s, a).store.jobs ensures WithinAttempts(s.cfg, Step(s, a).store.jobs[id]) {
      if id in s.store.jobs {
        var before, after := s.store.jobs[id], Step(s, a).store.jobs[id];
        assert LegalRewrite(before, after);
        assert WithinAttempts(s.cfg, before);
      } else {
        NewRecord(s, a, id);
      }
    }
  }

  lemma WorkersAddNoRecords(cfg: Config, st: Store, w: Worker, x: Input)
    requires WorkerOk(st.jobs, w)
    ensures WorkerStep(cfg, st, w, x).0.jobs.Keys == st.jobs.Keys
  {}

  lemma NewRecord(s: System, a: Action, id: string)
    requires SystemInv(s) && id !in s.store.jobs && id in Step(s, a).store.jobs
    ensures a.Produce? && a.index < |s.producers| && s.producers[a.index].pc.WriteJob?
    ensures Step(s, a).store.jobs[id] == s.producers[a.index].pc.job
  {
    hide WorkerStep, WorkerOk;
    if a.Work? && a.index < |s.workers| {
      WorkersAddNoRecords(s.cfg, s.store, s.workers[a.index], a.input);
    }
  }

  lemma {:induction false} AttemptsAreBounded(s: System, actions: seq<Action>)
    requires SystemInv(s) && AttemptsOk(s)
    ensures AttemptsOk(Run(s, actions))
    decreases |actions|
  {
    if actions != [] {
      StepKeepsAttempts(s, actions[0]);
      StepKeepsInv(s, actions[0]);
      hide SystemInv, Step, AttemptsOk;
      AttemptsAreBounded(Step(s, actions[0]), actions[1..]);
    }
  }

  lemma EveryJobWithinAttempts(start: System, actions: seq<Action>, id: string)
    requires IsInitial(start) && HasFreshIds(start)
    requires id in Run(start, actions).store.jobs
    ensures Run(start, actions).store.jobs[id].attempts <= Max(1, start.cfg.maxRetries)
  {
    InitialInv(start);
    AttemptsAreBounded(start, actions);
    SameConfig(start, actions);
  }

  lemma {:induction false} SameConfig(s: System, actions: seq<Action>)
    ensures Run(s, actions).cfg == s.cfg
    decreases |actions|
  {
    if actions != [] {
      SameConfig(Step(s, actions[0]), actions[1..]);
    }
  }
}

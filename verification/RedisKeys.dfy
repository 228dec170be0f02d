/** Idempotency keys in the asynchronous Redis adapter: which submissions are answered as duplicates, and exactly when
    a key yields at most one job. */
module RedisKeys {
  import opened Collections
  import opened JobStates
  import opened QueueModel
  import opened RedisSteps
  import opened RedisRuns

  // ---------------------------------------------------------------- recorded keys

  /** The key is recorded for a stored job that carries it. */
  ghost predicate KeyKnown(s: System, key: string) {
    && key in s.store.keys
    && s.store.keys[key] in s.store.jobs
    && s.store.jobs[s.store.keys[key]].key == Some(key)
  }

  ghost predicate KeysInv(s: System) {
    forall key :: key in s.store.keys ==> KeyKnown(s, key)
  }

  lemma KeysUntouched(cfg: Config, st: Store, w: Worker, x: Input)
    ensures WorkerStep(cfg, st, w, x).0.keys == st.keys
  {}

  /** Only a producer's last step records a key, and it records that producer's own. */
  lemma KeysAfterStep(s: System, a: Action)
    requires SystemInv(s)
    ensures forall key :: key in Step(s, a).store.keys ==>
              (key in s.store.keys && Step(s, a).store.keys[key] == s.store.keys[key]) || KeyKnown(Step(s, a), key)
    ensures forall key :: key in s.store.keys && a != ExpireKey(key) ==> key in Step(s, a).store.keys
  {
    match a
    case Produce(i, now) =>
      if i < |s.producers| { assert ProducerOk(s.store, s.producers[i]); }
      hide SystemInv;
    case Work(i, x) =>
      hide SystemInv;
      if i < |s.workers| { KeysUntouched(s.cfg, s.store, s.workers[i], x); hide WorkerStep; }
    case _ =>
      hide SystemInv;
  }

  lemma StepKeepsKey(s: System, a: Action, key: string)
    requires SystemInv(s) && KeyKnown(s, key) && a != ExpireKey(key)
    ensures KeyKnown(Step(s, a), key)
  {
    StepIsLegal(s, a);
    KeysAfterStep(s, a);
    hide SystemInv, Step;
  }

  lemma StepKeepsKeysInv(s: System, a: Action)
    requires SystemInv(s) && KeysInv(s)
    ensures KeysInv(Step(s, a))
  {
    StepIsLegal(s, a);
    KeysAfterStep(s, a);
    hide SystemInv, Step;
  }

  lemma {:induction false} RunKeepsKeysInv(s: System, actions: seq<Action>)
    requires SystemInv(s) && KeysInv(s)
    ensures KeysInv(Run(s, actions))
    decreases |actions|
  {
    hide SystemInv, KeysInv, Step;
    if actions != [] {
      StepKeepsInv(s, actions[0]);
      StepKeepsKeysInv(s, actions[0]);
      RunKeepsKeysInv(Step(s, actions[0]), actions[1..]);
    }
  }

  // ---------------------------------------------------------------- the answer of one submission

  /** The submission found a recorded key: it has read, or been answered with, a job under that key. */
  ghost predicate FoundKey(s: System, i: nat, key: string) {
    && i < |s.producers| && KeyOf(s.producers[i].data) == Some(key)
    && match s.producers[i].pc {
         case ReadExisting(id) => id in s.store.jobs && s.store.jobs[id].key == Some(key)
         case Answered(answer) => answer.Duplicate? && answer.job.key == Some(key)
         case _ => false
       }
  }

  /** The submission found no recorded key: it creates a job or is turned away. */
  ghost predicate FoundNoKey(s: System, i: nat) {
    i < |s.producers| && match s.producers[i].pc {
      case CheckKey => false
      case ReadExisting(_) => false
      case Answered(answer) => !answer.Duplicate?
      case _ => true
    }
  }

  lemma StepKeepsFound(s: System, a: Action, i: nat, key: string)
    requires SystemInv(s)
    ensures FoundKey(s, i, key) ==> FoundKey(Step(s, a), i, key)
    ensures FoundNoKey(s, i) ==> FoundNoKey(Step(s, a), i)
  {
    StepIsLegal(s, a);
    hide SystemInv, WorkerStep;
  }

  lemma {:induction false} RunKeepsFound(s: System, actions: seq<Action>, i: nat, key: string)
    requires SystemInv(s)
    ensures FoundKey(s, i, key) ==> FoundKey(Run(s, actions), i, key)
    ensures FoundNoKey(s, i) ==> FoundNoKey(Run(s, actions), i)
    decreases |actions|
  {
    if actions != [] {
      StepKeepsInv(s, actions[0]);
      StepKeepsFound(s, actions[0], i, key);
      hide SystemInv, Step, FoundKey, FoundNoKey;
      RunKeepsFound(Step(s, actions[0]), actions[1..], i, key);
    }
  }

  /** In every reachable state: a submission that looks up its key now is answered, in every continuation, with a
      job under that key if the key is recorded now, and never as a duplicate if it is not. */
  lemma DuplicateIffRecorded(start: System, before: seq<Action>, i: nat, key: string, now: int, after: seq<Action>)
    requires IsInitial(start) && HasFreshIds(start)
    requires var s := Run(start, before);
      i < |s.producers| && s.producers[i].pc == CheckKey && KeyOf(s.producers[i].data) == Some(key)
    ensures var s := Run(start, before); var r := Run(Step(s, Produce(i, now)), after);
      && i < |r.producers|
      && (r.producers[i].pc.Answered? ==>
            && (r.producers[i].pc.answer.Duplicate? <==> key in s.store.keys)
            && (key in s.store.keys ==> r.producers[i].pc.answer.job.key == Some(key)))
  {
    InitialInv(start);
    RunKeepsInv(start, before);
    RunKeepsKeysInv(start, before);
    var s := Run(start, before);
    var s' := Step(s, Produce(i, now));
    hide Run;
    assert key in s.store.keys ==> KeyKnown(s, key) && s.store.keys[key] != "";
    assert if key in s.store.keys then FoundKey(s', i, key) else FoundNoKey(s', i);
    StepKeepsInv(s, Produce(i, now));
    RunKeepsFound(s', after, i, key);
    hide SystemInv, Step;
  }

  /** A submission that was answered as accepted has recorded its key. */
  ghost predicate AcceptedIsRecorded(s: System, i: nat, key: string) {
    i < |s.producers| && KeyOf(s.producers[i].data) == Some(key)
    && (s.producers[i].pc.Answered? && s.producers[i].pc.answer.Accepted? ==> KeyKnown(s, key))
  }

  lemma StepKeepsAccepted(s: System, a: Action, i: nat, key: string)
    requires SystemInv(s) && AcceptedIsRecorded(s, i, key) && a != ExpireKey(key)
    ensures AcceptedIsRecorded(Step(s, a), i, key)
  {
    if KeyKnown(s, key) { StepKeepsKey(s, a, key); }
    assert ProducerOk(s.store, s.producers[i]);
    hide SystemInv, WorkerStep;
  }

  lemma {:induction false} RunKeepsAccepted(s: System, actions: seq<Action>, i: nat, key: string)
    requires SystemInv(s) && AcceptedIsRecorded(s, i, key) && ExpireKey(key) !in actions
    ensures AcceptedIsRecorded(Run(s, actions), i, key)
    decreases |actions|
  {
    if actions != [] {
      var a := actions[0];
      assert a in actions && forall b :: b in actions[1..] ==> b in actions;
      StepKeepsInv(s, a);
      StepKeepsAccepted(s, a, i, key);
      hide SystemInv, Step, AcceptedIsRecorded;
      RunKeepsAccepted(Step(s, a), actions[1..], i, key);
    }
  }

  /** What callers can see: if a submission was not yet answered at some point, was answered as accepted since, and
      its key has not expired since that point, then the key is recorded. */
  lemma AcceptedKeyIsKnown(start: System, before: seq<Action>, since: seq<Action>, i: nat, key: string)
    requires IsInitial(start) && HasFreshIds(start) && ExpireKey(key) !in since
    requires var s := Run(start, before);
      i < |s.producers| && !s.producers[i].pc.Answered? && KeyOf(s.producers[i].data) == Some(key)
    requires var r := Run(Run(start, before), since);
      i < |r.producers| && r.producers[i].pc.Answered? && r.producers[i].pc.answer.Accepted?
    ensures KeyKnown(Run(Run(start, before), since), key)
  {
    InitialInv(start);
    RunKeepsInv(start, before);
    RunKeepsAccepted(Run(start, before), since, i, key);
    hide Run, SystemInv;
  }

  /** The submissions stay what they are. */
  ghost predicate SameSubmissions(s: System, s': System) {
    |s'.producers| == |s.producers| && s'.cfg == s.cfg
    && forall i :: 0 <= i < |s.producers| ==> s'.producers[i].data == s.producers[i].data && s'.producers[i].Id() == s.producers[i].Id()
  }

  lemma StepKeepsSubmissions(s: System, a: Action)
    ensures SameSubmissions(s, Step(s, a))
  {
    hide ProducerStep, WorkerStep;
  }

  lemma {:induction false} RunKeepsSubmissions(s: System, actions: seq<Action>)
    ensures SameSubmissions(s, Run(s, actions))
    decreases |actions|
  {
    if actions != [] {
      StepKeepsSubmissions(s, actions[0]);
      hide Step;
      RunKeepsSubmissions(Step(s, actions[0]), actions[1..]);
    }
  }

  /** Some submission under the key has been answered as accepted. */
  ghost predicate SomeAccepted(s: System, key: string) {
    exists i :: 0 <= i < |s.producers| && IsAccepted(s.producers[i], key)
  }

  predicate IsAccepted(p: Producer, key: string) {
    KeyOf(p.data) == Some(key) && p.pc.Answered? && p.pc.answer.Accepted?
  }

  ghost predicate OnlyAcceptedRecorded(s: System) {
    forall key :: key in s.store.keys ==> SomeAccepted(s, key)
  }

  lemma StepKeepsSomeAccepted(s: System, a: Action, key: string)
    requires SomeAccepted(s, key)
    ensures SomeAccepted(Step(s, a), key)
  {
    var i :| 0 <= i < |s.producers| && IsAccepted(s.producers[i], key);
    assert IsAccepted(Step(s, a).producers[i], key);
  }

  lemma StepKeepsRecorded(s: System, a: Action)
    requires SystemInv(s) && OnlyAcceptedRecorded(s)
    ensures OnlyAcceptedRecorded(Step(s, a))
  {
    var s' := Step(s, a);
    forall key | key in s'.store.keys ensures SomeAccepted(s', key) {
      if SomeAccepted(s, key) {
        StepKeepsSomeAccepted(s, a, key);
      } else {
        if a.Work? && a.index < |s.workers| { KeysUntouched(s.cfg, s.store, s.workers[a.index], a.input); }
        if a.Produce? && a.index < |s.producers| { assert ProducerOk(s.store, s.producers[a.index]); }
        hide SystemInv, WorkerStep;
        assert IsAccepted(s'.producers[a.index], key);
      }
    }
  }

  lemma {:induction false} RunKeepsRecorded(s: System, actions: seq<Action>)
    requires SystemInv(s) && OnlyAcceptedRecorded(s)
    ensures OnlyAcceptedRecorded(Run(s, actions))
    decreases |actions|
  {
    hide SystemInv, OnlyAcceptedRecorded, Step;
    if actions != [] {
      StepKeepsInv(s, actions[0]);
      StepKeepsRecorded(s, actions[0]);
      RunKeepsRecorded(Step(s, actions[0]), actions[1..]);
    }
  }

  /** While a key does not expire, it is recorded exactly when a submission under it has been answered as accepted. */
  lemma RecordedIffAccepted(start: System, actions: seq<Action>, key: string)
    requires IsInitial(start) && HasFreshIds(start) && ExpireKey(key) !in actions
    ensures key in Run(start, actions).store.keys <==> SomeAccepted(Run(start, actions), key)
  {
    InitialInv(start);
    RunKeepsRecorded(start, actions);
    var s := Run(start, actions);
    if i :| 0 <= i < |s.producers| && IsAccepted(s.producers[i], key) {
      RunKeepsSubmissions(start, actions);
      AcceptedKeyIsKnown(start, [], actions, i, key);
    }
    hide Run, SystemInv;
  }

  /** The deduplication that holds, in terms of answers alone: while its key does not expire, a submission is answered
      as a duplicate exactly when another one under that key had been answered as accepted before it looked, and
      then with a job under that key. */
  lemma DuplicateIffEarlierAccepted(start: System, before: seq<Action>, i: nat, key: string, now: int, after: seq<Action>)
    requires IsInitial(start) && HasFreshIds(start) && ExpireKey(key) !in before
    requires var s := Run(start, before);
      i < |s.producers| && s.producers[i].pc == CheckKey && KeyOf(s.producers[i].data) == Some(key)
    ensures var s := Run(start, before); var r := Run(Step(s, Produce(i, now)), after);
      && i < |r.producers|
      && (r.producers[i].pc.Answered? ==>
            && (r.producers[i].pc.answer.Duplicate? <==> SomeAccepted(s, key))
            && (SomeAccepted(s, key) ==> r.producers[i].pc.answer.job.key == Some(key)))
  {
    RecordedIffAccepted(start, before, key);
    DuplicateIffRecorded(start, before, i, key, now, after);
    hide Run, Step, SomeAccepted;
  }

  lemma {:induction false} RunSplit(s: System, a: seq<Action>, b: seq<Action>)
    ensures Run(s, a + b) == Run(Run(s, a), b)
    decreases |a|
  {
    hide Step;
    if a == [] {
      assert a + b == b;
    } else {
      assert (a + b)[1..] == a[1..] + b;
      RunSplit(Step(s, a[0]), a[1..], b);
    }
  }

  /** The deduplication that holds: a submission that looks up its key after another one under that key was answered
      as accepted, the key not having expired since, is only ever answered with a job under that key. */
  lemma LateSubmissionIsDuplicate(start: System, before: seq<Action>, since: seq<Action>, i: nat, j: nat, key: string,
                                  now: int, after: seq<Action>)
    requires IsInitial(start) && HasFreshIds(start) && ExpireKey(key) !in since
    requires var s := Run(start, before);
      i < |s.producers| && !s.producers[i].pc.Answered? && KeyOf(s.producers[i].data) == Some(key)
    requires var r := Run(Run(start, before), since);
      && i < |r.producers| && r.producers[i].pc.Answered? && r.producers[i].pc.answer.Accepted?
      && j < |r.producers| && r.producers[j].pc == CheckKey && KeyOf(r.producers[j].data) == Some(key)
    ensures var end := Run(Step(Run(Run(start, before), since), Produce(j, now)), after);
      j < |end.producers| && (end.producers[j].pc.Answered? ==>
        end.producers[j].pc.answer.Duplicate? && end.producers[j].pc.answer.job.key == Some(key))
  {
    AcceptedKeyIsKnown(start, before, since, i, key);
    RunSplit(start, before, since);
    DuplicateIffRecorded(start, before + since, j, key, now, after);
    hide Run, Step;
  }

  // ---------------------------------------------------------------- the race

  lemma RunPair(s: System, a: Action, b: Action)
    ensures Run(s, [a, b]) == Step(Step(s, a), b)
  {
    hide Step;
    assert [a, b][1..] == [b] && [b][1..] == [];
    assert Run(Step(s, a), [b]) == Run(Step(Step(s, a), b), []);
  }

  lemma RunTwo(s: System, a: Action)
    ensures Run(s, Times(a, 2)) == Step(Step(s, a), a)
  {
    hide Step;
    assert Times(a, 2) == [a, a];
    RunPair(s, a, a);
  }

  lemma RunThree(s: System, a: Action)
    ensures Run(s, Times(a, 3)) == Step(Step(Step(s, a), a), a)
  {
    hide Step;
    assert Times(a, 3) == [a, a, a] && [a, a, a][1..] == [a, a] && Times(a, 2) == [a, a];
    RunTwo(Step(s, a), a);
  }

  /** Both submissions read the key and the depth before either writes; then one finishes, then the other. */
  function Race(i: nat, j: nat, now: int): seq<Action> {
    Times(Produce(i, now), 2) + Times(Produce(j, now), 2) + (Times(Produce(i, now), 3) + Times(Produce(j, now), 3))
  }

  /** A producer whose key is not recorded reads the key and, if there is room, the depth. */
  lemma PassesChecks(s: System, i: nat, now: int)
    requires i < |s.producers| && s.producers[i].pc == CheckKey && s.store.keys == map[]
    requires |s.store.waiting| < s.cfg.maxQueueDepth
    ensures var p := s.producers[i];
      Run(s, Times(Produce(i, now), 2)) == s.(producers := s.producers[i := p.(pc := WriteJob(NewJob(s.cfg, p.data, p.freshId, now)))])
  {
    var p, a := s.producers[i], Produce(i, now);
    var s1 := s.(producers := s.producers[i := p.(pc := ReadDepth)]);
    assert Step(s, a) == s1;
    assert Step(s1, a) == s.(producers := s.producers[i := p.(pc := WriteJob(NewJob(s.cfg, p.data, p.freshId, now)))]);
    hide Step;
    RunTwo(s, a);
  }

  /** A producer past the checks writes, pushes and records. */
  lemma Finishes(s: System, i: nat, now: int)
    requires i < |s.producers| && s.producers[i].pc.WriteJob? && s.producers[i].pc.job.key.Some?
    ensures var p := s.producers[i]; var job := p.pc.job;
      Run(s, Times(Produce(i, now), 3)) == s.(
        store := Store(s.store.jobs[job.id := job], [job.id] + s.store.waiting, s.store.leases, s.store.keys[job.key.value := job.id]),
        producers := s.producers[i := p.(pc := Answered(Accepted(job)))])
  {
    var p, a := s.producers[i], Produce(i, now);
    var job := p.pc.job;
    var s1 := s.(store := s.store.(jobs := s.store.jobs[job.id := job]), producers := s.producers[i := p.(pc := PushJob(job))]);
    assert Step(s, a) == s1;
    var s2 := s1.(store := s1.store.(waiting := [job.id] + s.store.waiting), producers := s.producers[i := p.(pc := WriteKey(job))]);
    assert Step(s1, a) == s2;
    var s3 := s2.(store := s2.store.(keys := s.store.keys[job.key.value := job.id]),
                  producers := s.producers[i := p.(pc := Answered(Accepted(job)))]);
    assert Step(s2, a) == s3;
    hide Step;
    RunThree(s, a);
  }

  /** Both submissions are past the checks. */
  lemma BothPassChecks(s: System, i: nat, j: nat, now: int)
    requires IsInitial(s) && i < |s.producers| && j < |s.producers| && i != j && s.cfg.maxQueueDepth >= 1
    ensures var p, q := s.producers[i], s.producers[j];
      Run(s, Times(Produce(i, now), 2) + Times(Produce(j, now), 2)) == s.(producers :=
        s.producers[i := p.(pc := WriteJob(NewJob(s.cfg, p.data, p.freshId, now)))]
                   [j := q.(pc := WriteJob(NewJob(s.cfg, q.data, q.freshId, now)))])
  {
    PassesChecks(s, i, now);
    var s1 := Run(s, Times(Produce(i, now), 2));
    RunSplit(s, Times(Produce(i, now), 2), Times(Produce(j, now), 2));
    hide Run, Times, Step, NewJob;
    PassesChecks(s1, j, now);
  }

  /** One finishes, then the other. */
  lemma BothFinish(s: System, i: nat, j: nat, now: int)
    requires i < |s.producers| && j < |s.producers| && i != j
    requires s.producers[i].pc.WriteJob? && s.producers[i].pc.job.key.Some?
    requires s.producers[j].pc.WriteJob? && s.producers[j].pc.job.key.Some?
    ensures var end := Run(s, Times(Produce(i, now), 3) + Times(Produce(j, now), 3));
      var job1, job2 := s.producers[i].pc.job, s.producers[j].pc.job;
      && |end.producers| == |s.producers|
      && end.producers[i].pc == Answered(Accepted(job1)) && end.producers[j].pc == Answered(Accepted(job2))
      && end.store.waiting == [job2.id] + ([job1.id] + s.store.waiting)
      && end.store.jobs == s.store.jobs[job1.id := job1][job2.id := job2]
  {
    var a, b := Produce(i, now), Produce(j, now);
    RunSplit(s, Times(a, 3), Times(b, 3));
    hide Run, Times, Step;
    Finishes(s, i, now);
    var s1 := Run(s, Times(a, 3));
    assert s1.producers[j] == s.producers[j];
    Finishes(s1, j, now);
  }

  /** Any two submissions with keys can both be accepted on an empty store, whatever their keys and although the
      depth allows for one job only. */
  lemma ConcurrentSubmissionsBothAccepted(s: System, i: nat, j: nat, now: int)
    requires IsInitial(s) && i < |s.producers| && j < |s.producers| && i != j && s.cfg.maxQueueDepth >= 1
    requires KeyOf(s.producers[i].data).Some? && KeyOf(s.producers[j].data).Some?
    ensures var end := Run(s, Race(i, j, now)); var p, q := s.producers[i], s.producers[j];
      var job1, job2 := NewJob(s.cfg, p.data, p.freshId, now), NewJob(s.cfg, q.data, q.freshId, now);
      && |end.producers| == |s.producers|
      && end.producers[i].pc == Answered(Accepted(job1)) && end.producers[j].pc == Answered(Accepted(job2))
      && end.store.waiting == [job2.id, job1.id] && end.store.jobs == map[job1.id := job1][job2.id := job2]
  {
    var a, b := Produce(i, now), Produce(j, now);
    RunSplit(s, Times(a, 2) + Times(b, 2), Times(a, 3) + Times(b, 3));
    BothPassChecks(s, i, j, now);
    var s2 := Run(s, Times(a, 2) + Times(b, 2));
    assert s2.producers[i].pc.job.key.Some? && s2.producers[j].pc.job.key.Some?;
    assert s.store == Store(map[], [], map[], map[]);
    hide Run, Times, Step, NewJob, KeyOf, IsInitial;
    BothFinish(s2, i, j, now);
  }

  /** Different job ids are needed: when one job id is submitted twice at the same time, it waits twice. */
  lemma SameIdWaitsTwice(s: System, i: nat, j: nat, now: int)
    requires IsInitial(s) && i < |s.producers| && j < |s.producers| && i != j && s.cfg.maxQueueDepth >= 1
    requires s.producers[i].Id() == s.producers[j].Id() && Given(s.producers[i].data.jobId) && Given(s.producers[j].data.jobId)
    ensures var id := s.producers[i].Id(); Run(s, Race(i, j, now)).store.waiting == [id, id]
  {
    ConcurrentSubmissionsBothAccepted(s, i, j, now);
    hide Run, Race;
  }

  // ---------------------------------------------------------------- one job per key

  predicate SameKey(jobs: map<string, Job>, a: string, b: string) {
    a in jobs && b in jobs && jobs[a].key.Some? && jobs[a].key == jobs[b].key
  }

  ghost predicate OneJobPerKey(s: System) {
    forall a, b :: SameKey(s.store.jobs, a, b) ==> a == b
  }

  /** No two submissions share a key. */
  ghost predicate DistinctKeys(s: System) {
    forall i, j :: 0 <= i < j < |s.producers| && KeyOf(s.producers[i].data).Some? ==>
      KeyOf(s.producers[i].data) != KeyOf(s.producers[j].data)
  }

  /** The job was submitted by this producer. */
  predicate Owns(p: Producer, id: string, job: Job) {
    p.Id() == id && job.key == KeyOf(p.data)
  }

  ghost predicate HasOwner(producers: seq<Producer>, id: string, job: Job) {
    exists i :: 0 <= i < |producers| && Owns(producers[i], id, job)
  }

  ghost predicate AllOwned(s: System) {
    forall id :: id in s.store.jobs ==> HasOwner(s.producers, id, s.store.jobs[id])
  }

  lemma OwnersStay(s: System, a: Action, id: string, before: Job, after: Job)
    requires HasOwner(s.producers, id, before) && after.key == before.key
    ensures HasOwner(Step(s, a).producers, id, after)
  {
    var i :| 0 <= i < |s.producers| && Owns(s.producers[i], id, before);
    assert Owns(Step(s, a).producers[i], id, after);
  }

  lemma StepKeepsOwners(s: System, a: Action)
    requires SystemInv(s) && AllOwned(s)
    ensures AllOwned(Step(s, a))
  {
    StepIsLegal(s, a);
    forall id | id in Step(s, a).store.jobs ensures HasOwner(Step(s, a).producers, id, Step(s, a).store.jobs[id]) {
      if id in s.store.jobs {
        assert LegalRewrite(s.store.jobs[id], Step(s, a).store.jobs[id]);
        OwnersStay(s, a, id, s.store.jobs[id], Step(s, a).store.jobs[id]);
      } else {
        NewRecord(s, a, id);
        assert ProducerOk(s.store, s.producers[a.index]);
        hide SystemInv;
        assert Owns(Step(s, a).producers[a.index], id, Step(s, a).store.jobs[id]);
      }
    }
  }

  lemma {:induction false} RunKeepsOwners(s: System, actions: seq<Action>)
    requires SystemInv(s) && AllOwned(s)
    ensures AllOwned(Run(s, actions))
    decreases |actions|
  {
    hide SystemInv, AllOwned, Step;
    if actions != [] {
      StepKeepsInv(s, actions[0]);
      StepKeepsOwners(s, actions[0]);
      RunKeepsOwners(Step(s, actions[0]), actions[1..]);
    }
  }

  lemma OwnersDiffer(s: System)
    requires DistinctKeys(s) && AllOwned(s)
    ensures OneJobPerKey(s)
  {
    forall a, b | SameKey(s.store.jobs, a, b) ensures a == b {
      assert HasOwner(s.producers, a, s.store.jobs[a]) && HasOwner(s.producers, b, s.store.jobs[b]);
      var i :| 0 <= i < |s.producers| && Owns(s.producers[i], a, s.store.jobs[a]);
      var j :| 0 <= j < |s.producers| && Owns(s.producers[j], b, s.store.jobs[b]);
    }
  }

  lemma DistinctKeysGiveOneJob(start: System, actions: seq<Action>)
    requires IsInitial(start) && HasFreshIds(start) && DistinctKeys(start)
    ensures OneJobPerKey(Run(start, actions))
  {
    InitialInv(start);
    RunKeepsOwners(start, actions);
    RunKeepsSubmissions(start, actions);
    var s := Run(start, actions);
    hide Run, SystemInv, IsInitial, HasFreshIds, AllOwned, OneJobPerKey;
    assert DistinctKeys(s);
    OwnersDiffer(s);
  }

  /** Without any depth nothing is ever accepted. */
  ghost predicate NothingAccepted(s: System) {
    && s.store.jobs == map[] && s.cfg.maxQueueDepth <= 0
    && forall i :: 0 <= i < |s.producers| ==>
         !s.producers[i].pc.WriteJob? && !s.producers[i].pc.PushJob? && !s.producers[i].pc.WriteKey?
  }

  lemma StepKeepsNothing(s: System, a: Action)
    requires SystemInv(s) && NothingAccepted(s)
    ensures NothingAccepted(Step(s, a))
  {
    StepIsLegal(s, a);
    StepKeepsSubmissions(s, a);
    if id :| id in Step(s, a).store.jobs { NewRecord(s, a, id); assert false; }
    hide SystemInv, WorkerStep;
  }

  lemma {:induction false} RunKeepsNothing(s: System, actions: seq<Action>)
    requires SystemInv(s) && NothingAccepted(s)
    ensures NothingAccepted(Run(s, actions))
    decreases |actions|
  {
    hide SystemInv, NothingAccepted, Step;
    if actions != [] {
      StepKeepsInv(s, actions[0]);
      StepKeepsNothing(s, actions[0]);
      RunKeepsNothing(Step(s, actions[0]), actions[1..]);
    }
  }

  lemma NothingIsOneJob(start: System, actions: seq<Action>)
    requires IsInitial(start) && HasFreshIds(start) && start.cfg.maxQueueDepth <= 0
    ensures OneJobPerKey(Run(start, actions))
  {
    InitialInv(start);
    RunKeepsNothing(start, actions);
    hide Run, SystemInv;
  }

  lemma SharedKeyGivesTwoJobs(start: System, i: nat, j: nat)
    requires IsInitial(start) && HasFreshIds(start) && start.cfg.maxQueueDepth >= 1
    requires i < j < |start.producers| && KeyOf(start.producers[i].data).Some?
    requires KeyOf(start.producers[i].data) == KeyOf(start.producers[j].data)
    ensures !OneJobPerKey(Run(start, Race(i, j, 0)))
  {
    ConcurrentSubmissionsBothAccepted(start, i, j, 0);
    var end := Run(start, Race(i, j, 0));
    hide Run, Race, IsInitial;
    assert SameKey(end.store.jobs, start.producers[i].Id(), start.producers[j].Id());
  }

  /** From an empty store: every interleaving, key expiry included, keeps at most one job per key exactly when no two
      submissions share a key, or nothing is ever accepted. */
  lemma OneJobPerKeyIff(start: System)
    requires IsInitial(start) && HasFreshIds(start)
    ensures (forall actions :: OneJobPerKey(Run(start, actions))) <==> DistinctKeys(start) || start.cfg.maxQueueDepth <= 0
  {
    InitialInv(start);
    hide Run, Race, OneJobPerKey, SystemInv, IsInitial, HasFreshIds;
    if DistinctKeys(start) {
      forall actions ensures OneJobPerKey(Run(start, actions)) { DistinctKeysGiveOneJob(start, actions); }
    } else if start.cfg.maxQueueDepth <= 0 {
      forall actions ensures OneJobPerKey(Run(start, actions)) { NothingIsOneJob(start, actions); }
    } else {
      var i, j :| 0 <= i < j < |start.producers| && KeyOf(start.producers[i].data).Some?
        && KeyOf(start.producers[i].data) == KeyOf(start.producers[j].data);
      SharedKeyGivesTwoJobs(start, i, j);
    }
  }
}

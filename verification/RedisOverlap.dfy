/** Overlapping calls of the asynchronous Redis adapter that finish one job: repeated and late complete and fail calls. */
module RedisOverlap {
  import opened Collections
  import opened JobStates
  import opened QueueModel
  import opened RedisSteps
  import opened RedisRuns
  import opened RedisKeys

  /** Only running jobs are in more than one worker's hands: several workers are about to finish them, or finishing them. */
  ghost predicate OnlyRunningShared(s: System) {
    forall i, j :: 0 <= i < j < |s.workers| && InHand(s.workers[i]).Some? && InHand(s.workers[i]) == InHand(s.workers[j]) ==>
      IsRunning(s, InHand(s.workers[i]).value)
  }

  predicate IsRunning(s: System, id: string) {
    id in s.store.jobs && s.store.jobs[id].state == Running
  }

  ghost predicate LegalChange(s: System, s': System) {
    forall id :: id in s.store.jobs ==> id in s'.store.jobs && LegalRewrite(s.store.jobs[id], s'.store.jobs[id])
  }

  /** Throughout the run no job waits twice and every change of a job record is legal. */
  ghost predicate Orderly(s: System, actions: seq<Action>)
    decreases |actions|
  {
    && NoDup(s.store.waiting)
    && (actions != [] ==> LegalChange(s, Step(s, actions[0])) && Orderly(Step(s, actions[0]), actions[1..]))
  }

  lemma {:induction false} DifferentHandsAreOrderly(s: System, actions: seq<Action>)
    requires SystemInv(s)
    ensures Orderly(s, actions)
    decreases |actions|
  {
    assert NoDup(s.store.waiting);
    if actions != [] {
      StepIsLegal(s, actions[0]);
      StepKeepsInv(s, actions[0]);
      hide SystemInv, Step;
      DifferentHandsAreOrderly(Step(s, actions[0]), actions[1..]);
    }
  }

  // ---------------------------------------------------------------- two calls on one job

  function FailInput(now: int): Input {
    Input("", None, "", false, "", JobError("", ""), now)
  }

  /** The worker's next step writes the record of the job in its hands, which is running. */
  ghost predicate AboutToWrite(s: System, i: nat, id: string) {
    && i < |s.workers| && IsRunning(s, id)
    && match s.workers[i] {
         case CompleteWriting(j, _, read) => j == id && read == s.store.jobs[id]
         case RequeueWriting(j, read) => j == id && read == s.store.jobs[id] && read.attempts < read.maxRetries
         case FailWriting(j, read) => j == id && read == s.store.jobs[id] && read.attempts >= read.maxRetries
         case _ => false
       }
  }

  /** Only the leases and worker i have changed. */
  ghost predicate OnlyWorker(s: System, s': System, i: nat) {
    && s'.cfg == s.cfg && s'.producers == s.producers && s'.store == s.store.(leases := s'.store.leases)
    && i < |s.workers| == |s'.workers| && s'.workers == s.workers[i := s'.workers[i]]
  }

  /** Whether by complete or by fail, a worker with a running job in its hands can come to write its record. */
  lemma {:induction false} ComesToWrite(s: System, i: nat, id: string) returns (actions: seq<Action>)
    requires i < |s.workers| && WorkerOk(s.store.jobs, s.workers[i])
    requires InHand(s.workers[i]) == Some(id) && IsRunning(s, id)
    ensures OnlyWorker(s, Run(s, actions), i) && AboutToWrite(Run(s, actions), i, id)
    decreases match s.workers[i] { case Leasing(_, _) => 3 case Holding(_, _) => 2 case CompleteReading(_, _) => 1 case FailUnleasing(_, _, _) => 1 case _ => 0 }
  {
    if AboutToWrite(s, i, id) {
      assert s.workers[i := s.workers[i]] == s.workers;
      return [];
    }
    var a := Work(i, FailInput(0));
    var s1 := Step(s, a);
    assert OnlyWorker(s, s1, i) && WorkerOk(s1.store.jobs, s1.workers[i]) && InHand(s1.workers[i]) == Some(id);
    var rest := ComesToWrite(s1, i, id);
    actions := [a] + rest;
    assert actions[1..] == rest;
    assert s.workers[i := s1.workers[i]][i := Run(s1, rest).workers[i]] == s.workers[i := Run(s1, rest).workers[i]];
  }

  /** Whichever of the two writes comes second, it rewrites a record that the first has already moved on. */
  lemma SecondWriteIsIllegal(s: System, i: nat, j: nat, id: string)
    requires i != j && AboutToWrite(s, i, id) && AboutToWrite(s, j, id)
    ensures var s1 := Step(s, Work(i, FailInput(0))); !LegalChange(s1, Step(s1, Work(j, FailInput(1))))
  {
    var s1 := Step(s, Work(i, FailInput(0)));
    var s2 := Step(s1, Work(j, FailInput(1)));
    assert s1.workers[j] == s.workers[j];
    var read := s.store.jobs[id];
    var first, second := s1.store.jobs[id], s2.store.jobs[id];
    assert first.state in {Completed, Queued, Failed} && first.updatedAt == 0;
    assert second.state in {Completed, Queued, Failed} && second.updatedAt == 1;
    hide Step;
    assert !LegalRewrite(first, second);
  }

  lemma {:induction false} OrderlyToTheEnd(s: System, before: seq<Action>, after: seq<Action>)
    requires Orderly(s, before + after)
    ensures Orderly(Run(s, before), after)
    decreases |before|
  {
    hide Step, LegalChange;
    if before == [] {
      assert before + after == after;
    } else {
      assert (before + after)[1..] == before[1..] + after && (before + after)[0] == before[0];
      OrderlyToTheEnd(Step(s, before[0]), before[1..], after);
    }
  }

  lemma {:induction false} TwoWritesAreNotOrderly(s: System, i: nat, j: nat, id: string)
    requires i != j && AboutToWrite(s, i, id) && AboutToWrite(s, j, id)
    ensures !Orderly(s, [Work(i, FailInput(0)), Work(j, FailInput(1))])
  {
    SecondWriteIsIllegal(s, i, j, id);
    var a, b := Work(i, FailInput(0)), Work(j, FailInput(1));
    assert [a, b][1..] == [b];
    hide Step, LegalChange, AboutToWrite;
    assert !Orderly(Step(s, a), [b]);
  }

  lemma {:induction false} SharedJobIsNotOrderly(s: System, i: nat, j: nat, id: string) returns (actions: seq<Action>)
    requires CallsInv(s) && i < |s.workers| && j < |s.workers| && i != j
    requires InHand(s.workers[i]) == Some(id) && InHand(s.workers[j]) == Some(id) && IsRunning(s, id)
    ensures !Orderly(s, actions)
  {
    assert WorkerOk(s.store.jobs, s.workers[i]) && WorkerOk(s.store.jobs, s.workers[j]);
    hide CallsInv, Step, LegalChange;
    var first := ComesToWrite(s, i, id);
    var s1 := Run(s, first);
    var second := ComesToWrite(s1, j, id);
    var s2 := Run(s1, second);
    assert s2.workers[i] == s1.workers[i];
    assert AboutToWrite(s2, i, id);
    var last := [Work(i, FailInput(0)), Work(j, FailInput(1))];
    actions := (first + second) + last;
    RunSplit(s, first, second);
    hide Run, AboutToWrite, WorkerOk;
    TwoWritesAreNotOrderly(s2, i, j, id);
    if Orderly(s, actions) {
      OrderlyToTheEnd(s, first + second, last);
      assert false;
    }
  }

  /** Let any workers hold, or be in the middle of finishing, any running jobs, one job possibly several at a time: calls
      are repeated, or come late. Then all interleavings keep the waiting list free of duplicates and every change of a
      record legal exactly when no two of them have the same job in their hands. */
  lemma OverlapIsOrderlyIff(s: System)
    requires CallsInv(s) && OnlyRunningShared(s)
    ensures (forall actions :: Orderly(s, actions)) <==> HandsDiffer(s)
  {
    if HandsDiffer(s) {
      forall actions ensures Orderly(s, actions) { DifferentHandsAreOrderly(s, actions); }
    } else {
      var i, j :| 0 <= i < j < |s.workers| && InHand(s.workers[i]).Some? && InHand(s.workers[i]) == InHand(s.workers[j]);
      var actions := SharedJobIsNotOrderly(s, i, j, InHand(s.workers[i]).value);
      hide CallsInv, OnlyRunningShared;
    }
  }

  // ---------------------------------------------------------------- one call too many

  function OneMoreCall(s: System, id: string, token: string): System {
    s.(workers := s.workers + [Holding(id, token)])
  }

  lemma OneMoreCallKeepsTheRest(s: System, id: string, token: string)
    requires SystemInv(s) && IsRunning(s, id)
    ensures CallsInv(OneMoreCall(s, id, token)) && IsHeld(s.workers, id)
  {
    var t := OneMoreCall(s, id, token);
    forall x | IsHeld(s.workers, x) ensures IsHeld(t.workers, x) {
      var i :| 0 <= i < |s.workers| && InHand(s.workers[i]) == Some(x);
      assert t.workers[i] == s.workers[i];
    }
    forall x | x in t.store.leases ensures HasLease(t.workers, x, t.store.leases[x].token) {
      assert HasLease(s.workers, x, s.store.leases[x].token);
      var i :| 0 <= i < |s.workers| && LeaseOf(s.workers[i]) == Some((x, s.store.leases[x].token));
      assert t.workers[i] == s.workers[i];
    }
    assert WorkerOk(t.store.jobs, Holding(id, token));
    assert id !in s.store.waiting;
    forall i | 0 <= i < |s.producers| ensures s.producers[i].Id() == id ==> IsPushed(s.producers[i]) {
      assert ProducerOk(s.store, s.producers[i]);
    }
  }

  /** A running job is always in some worker's hands. So in every reachable state, one more call on it, say by a holder
      that repeats its own call, can break the waiting list or an earlier change. */
  lemma OneMoreCallIsTooMany(start: System, before: seq<Action>, id: string, token: string)
    requires IsInitial(start) && HasFreshIds(start)
    requires IsRunning(Run(start, before), id)
    ensures exists actions :: !Orderly(OneMoreCall(Run(start, before), id, token), actions)
  {
    InitialInv(start);
    RunKeepsInv(start, before);
    var s := Run(start, before);
    var t := OneMoreCall(s, id, token);
    OneMoreCallKeepsTheRest(s, id, token);
    hide SystemInv, Run, CallsInv;
    var i :| 0 <= i < |s.workers| && InHand(s.workers[i]) == Some(id);
    assert t.workers[i] == s.workers[i];
    var actions := SharedJobIsNotOrderly(t, i, |s.workers|, id);
  }

  /** Both calls read the job before either writes; then one finishes, then the other. */
  function Overlap(i: nat, j: nat, x: Input): seq<Action> {
    [Work(i, x), Work(j, x)] + (Times(Work(i, x), 3) + Times(Work(j, x), 3))
  }

  /** One step of a worker that was replaced by `w`. */
  lemma StepFrom(s: System, i: nat, st: Store, w: Worker, x: Input)
    requires i < |s.workers|
    ensures var (st', w') := WorkerStep(s.cfg, st, w, x);
      Step(s.(store := st, workers := s.workers[i := w]), Work(i, x)) == s.(store := st', workers := s.workers[i := w'])
  {
    hide WorkerStep;
  }

  /** A fail call that has read a job with attempts left removes the lease, writes and pushes. */
  lemma RetryFinishes(s: System, i: nat, x: Input)
    requires i < |s.workers| && s.workers[i].FailUnleasing?
    requires var read := s.workers[i].read; read.attempts < read.maxRetries
    ensures var id, read := s.workers[i].id, s.workers[i].read;
      Run(s, Times(Work(i, x), 3)) == s.(
        store := Store(s.store.jobs[id := read.(state := Queued, updatedAt := x.now)], s.store.waiting + [id], s.store.leases - {id}, s.store.keys),
        workers := s.workers[i := Idle])
  {
    var a, w := Work(i, x), s.workers[i];
    var (st1, w1) := WorkerStep(s.cfg, s.store, w, x);
    var (st2, w2) := WorkerStep(s.cfg, st1, w1, x);
    var (st3, w3) := WorkerStep(s.cfg, st2, w2, x);
    assert w3 == Idle && st3 == Store(s.store.jobs[w.id := w.read.(state := Queued, updatedAt := x.now)], s.store.waiting + [w.id],
                                      s.store.leases - {w.id}, s.store.keys);
    hide Step, WorkerStep, Run, Times;
    assert s == s.(store := s.store, workers := s.workers[i := w]);
    StepFrom(s, i, s.store, w, x);
    StepFrom(s, i, st1, w1, x);
    StepFrom(s, i, st2, w2, x);
    RunThree(s, a);
  }

  /** Both of two fail calls on one job have read it. */
  lemma BothRead(s: System, i: nat, j: nat, id: string, x: Input)
    requires i < |s.workers| && j < |s.workers| && i != j && !x.completes && id in s.store.jobs
    requires s.workers[i].Holding? && s.workers[i].id == id && s.workers[j].Holding? && s.workers[j].id == id
    ensures var job := s.store.jobs[id];
      Run(s, [Work(i, x), Work(j, x)]) == s.(workers :=
        s.workers[i := FailUnleasing(id, s.workers[i].token, job)][j := FailUnleasing(id, s.workers[j].token, job)])
  {
    var a, b := Work(i, x), Work(j, x);
    var s1 := s.(workers := s.workers[i := FailUnleasing(id, s.workers[i].token, s.store.jobs[id])]);
    assert Step(s, a) == s1;
    assert Step(s1, b) == s1.(workers := s1.workers[j := FailUnleasing(id, s.workers[j].token, s.store.jobs[id])]);
    hide Step, Run;
    RunPair(s, a, b);
  }

  /** One finishes, then the other. */
  lemma BothRetry(s: System, i: nat, j: nat, id: string, x: Input)
    requires i < |s.workers| && j < |s.workers| && i != j
    requires s.workers[i].FailUnleasing? && s.workers[i].id == id && s.workers[i].read.attempts < s.workers[i].read.maxRetries
    requires s.workers[j].FailUnleasing? && s.workers[j].id == id && s.workers[j].read.attempts < s.workers[j].read.maxRetries
    ensures Run(s, Times(Work(i, x), 3) + Times(Work(j, x), 3)).store.waiting == s.store.waiting + [id] + [id]
  {
    RunSplit(s, Times(Work(i, x), 3), Times(Work(j, x), 3));
    hide Run, Times, Step;
    RetryFinishes(s, i, x);
    var s1 := Run(s, Times(Work(i, x), 3));
    assert s1.workers[j] == s.workers[j];
    RetryFinishes(s1, j, x);
  }

  /** Two fail calls that overlap on a job with attempts left make it wait twice. Each of them finds the job running and
      meets the condition under which a fail call is safe when it is not interrupted. */
  lemma OverlappingFailsWaitTwice(s: System, i: nat, j: nat, id: string, x: Input)
    requires i < |s.workers| && j < |s.workers| && i != j && !x.completes
    requires s.workers[i].Holding? && s.workers[i].id == id && s.workers[j].Holding? && s.workers[j].id == id
    requires IsRunning(s, id) && s.store.jobs[id].attempts < s.store.jobs[id].maxRetries
    ensures Run(s, Overlap(i, j, x)).store.waiting == s.store.waiting + [id, id]
  {
    var a, b := Work(i, x), Work(j, x);
    BothRead(s, i, j, id, x);
    var s2 := Run(s, [a, b]);
    RunSplit(s, [a, b], Times(a, 3) + Times(b, 3));
    hide Run, Times, Step;
    BothRetry(s2, i, j, id, x);
    assert s.store.waiting + [id] + [id] == s.store.waiting + [id, id];
  }
}

/** Concurrent `getOrCreatePrincipal` calls of packages/api/src/auth/identity-store.js. Each call is a task with a
    program counter; everything between two awaits is one step, and steps of different tasks interleave freely. */
module IdentityStore {
  import opened Collections

  datatype Doc = Doc(principalId: string, provider: string, subject: string)

  function FindOne(docs: seq<Doc>, provider: string, subject: string): (r: Option<Doc>)
    ensures r.Some? ==> r.value in docs && r.value.provider == provider && r.value.subject == subject
    ensures r.None? ==> forall d :: d in docs ==> !(d.provider == provider && d.subject == subject)
  {
    if docs == [] then None
    else if docs[0].provider == provider && docs[0].subject == subject then Some(docs[0])
    else FindOne(docs[1..], provider, subject)
  }

  class MemoryMongoCollection {
    var documents: seq<Doc>

    constructor ()
      ensures documents == []
    {
      documents := [];
    }

    method Find(provider: string, subject: string) returns (r: Option<Doc>)
      ensures r == FindOne(documents, provider, subject)
    {
      var i := 0;
      while i < |documents|
        invariant 0 <= i <= |documents|
        invariant FindOne(documents, provider, subject) == FindOne(documents[i..], provider, subject)
      {
        assert documents[i..][0] == documents[i] && documents[i..][1..] == documents[i + 1..];
        if documents[i].provider == provider && documents[i].subject == subject {
          return Some(documents[i]);
        }
        i := i + 1;
      }
      return None;
    }
  }

  /** Where a call is suspended. `Checking` has the outcome of the current uniqueness check and the number of
      unique indexes still to be checked before the document is pushed. */
  datatype Pc =
    | Begin
    | Ready
    | Waiting(owner: nat)
    | Looked(found: Option<Doc>)
    | Checking(left: nat, conflict: bool)
    | Conflicted
    | Reread(found: Option<Doc>)
    | Pushed
    | Done(principalId: string)
    | Failed
    | Rejected

  /** A call through one of the stores; `uuid` is the identifier it would mint. */
  datatype Task = Task(store: nat, provider: string, subject: string, uuid: string, pc: Pc)

  /** The shared collection with its number of unique indexes, the lock maps of all stores, and the calls. A lock
      is represented by the call whose promise it is. */
  datatype System = System(docs: seq<Doc>, indexes: nat, locks: map<(nat, string), nat>, tasks: seq<Task>)

  function LockKey(t: Task): (nat, string) {
    (t.store, t.provider + ":" + t.subject)
  }

  predicate Finished(pc: Pc) {
    pc.Done? || pc.Failed? || pc.Rejected?
  }

  predicate Holding(pc: Pc) {
    pc.Looked? || pc.Checking? || pc.Conflicted? || pc.Reread? || pc.Pushed?
  }

  /** A call can step unless it is finished or awaits the promise of an unfinished call. */
  predicate Enabled(s: System, i: nat) {
    i < |s.tasks| && !Finished(s.tasks[i].pc)
    && (s.tasks[i].pc.Waiting? ==> s.tasks[i].pc.owner < |s.tasks| && Finished(s.tasks[s.tasks[i].pc.owner].pc))
  }

  function Goto(s: System, i: nat, pc: Pc): System
    requires i < |s.tasks|
  {
    s.(tasks := s.tasks[i := s.tasks[i].(pc := pc)])
  }

  /** The `finally` block. */
  function Finish(s: System, i: nat, pc: Pc): System
    requires i < |s.tasks|
  {
    Goto(s, i, pc).(locks := s.locks - {LockKey(s.tasks[i])})
  }

  function Lookup(s: System, t: Task): Option<Doc> {
    FindOne(s.docs, t.provider, t.subject)
  }

  /** The lock test, and on success taking the lock and starting the first lookup. */
  function Acquire(s: System, i: nat): System
    requires i < |s.tasks|
  {
    var t := s.tasks[i];
    if LockKey(t) in s.locks then Goto(s, i, Waiting(s.locks[LockKey(t)]))
    else Goto(s, i, Looked(Lookup(s, t))).(locks := s.locks[LockKey(t) := i])
  }

  function Push(s: System, i: nat): System
    requires i < |s.tasks|
  {
    var t := s.tasks[i];
    Goto(s, i, Pushed).(docs := s.docs + [Doc(t.uuid, t.provider, t.subject)])
  }

  /** The next unique index is looked up, or none is left and the document is pushed. */
  function CheckOrPush(s: System, i: nat, left: nat): System
    requires i < |s.tasks|
  {
    if left == 0 then Push(s, i) else Goto(s, i, Checking(left - 1, Lookup(s, s.tasks[i]).Some?))
  }

  function Step(s: System, i: nat): System
    requires Enabled(s, i)
  {
    var t := s.tasks[i];
    match t.pc
    case Begin => Goto(s, i, if t.provider == "" || t.subject == "" then Rejected else Ready)
    case Ready => Acquire(s, i)
    case Waiting(_) => Acquire(s, i)
    case Looked(found) => if found.Some? then Finish(s, i, Done(found.value.principalId)) else CheckOrPush(s, i, s.indexes)
    case Checking(left, conflict) => if conflict then Goto(s, i, Conflicted) else CheckOrPush(s, i, left)
    case Conflicted => Goto(s, i, Reread(Lookup(s, t)))
    case Reread(found) => Finish(s, i, if found.Some? then Done(found.value.principalId) else Failed)
    case Pushed => Finish(s, i, Done(t.uuid))
  }

  /** The calls step in this order. */
  predicate IsSchedule(s: System, schedule: seq<nat>)
    decreases |schedule|
  {
    schedule == [] || (Enabled(s, schedule[0]) && IsSchedule(Step(s, schedule[0]), schedule[1..]))
  }

  function Run(s: System, schedule: seq<nat>): System
    requires IsSchedule(s, schedule)
    decreases |schedule|
  {
    if schedule == [] then s else Run(Step(s, schedule[0]), schedule[1..])
  }

  // ---------------------------------------------------------------- locks

  /** A lock is held by exactly the call recorded in the map. */
  ghost predicate LocksOk(s: System) {
    && (forall k :: k in s.locks ==>
          s.locks[k] < |s.tasks| && LockKey(s.tasks[s.locks[k]]) == k && Holding(s.tasks[s.locks[k]].pc))
    && (forall i :: 0 <= i < |s.tasks| && Holding(s.tasks[i].pc) ==>
          LockKey(s.tasks[i]) in s.locks && s.locks[LockKey(s.tasks[i])] == i)
  }

  /** Nobody waits for a call that has not started. */
  ghost predicate WaitsOk(s: System) {
    forall i :: 0 <= i < |s.tasks| && s.tasks[i].pc.Waiting? ==>
      s.tasks[i].pc.owner < |s.tasks|
      && (Holding(s.tasks[s.tasks[i].pc.owner].pc) || Finished(s.tasks[s.tasks[i].pc.owner].pc))
  }

  /** A step that neither takes nor gives back a lock. */
  lemma MoveKeepsLocks(s: System, s': System, i: nat)
    requires LocksOk(s) && i < |s.tasks| == |s'.tasks|
    requires s'.locks == s.locks && s'.tasks == s.tasks[i := s'.tasks[i]] && LockKey(s'.tasks[i]) == LockKey(s.tasks[i])
    requires Holding(s'.tasks[i].pc) <==> Holding(s.tasks[i].pc)
    ensures LocksOk(s')
  {
    hide LockKey, Holding;
  }

  lemma TakeKeepsLocks(s: System, i: nat, pc: Pc)
    requires LocksOk(s) && i < |s.tasks| && LockKey(s.tasks[i]) !in s.locks && Holding(pc)
    ensures LocksOk(Goto(s, i, pc).(locks := s.locks[LockKey(s.tasks[i]) := i]))
  {
    hide Holding;
  }

  lemma FinishKeepsLocks(s: System, i: nat, pc: Pc)
    requires LocksOk(s) && i < |s.tasks| && Holding(s.tasks[i].pc) && !Holding(pc)
    ensures LocksOk(Finish(s, i, pc))
  {
    hide Holding;
  }

  lemma StepKeepsLocks(s: System, i: nat)
    requires LocksOk(s) && Enabled(s, i)
    ensures LocksOk(Step(s, i))
  {
    var s' := Step(s, i);
    PushedDocs(s, i);
    hide LocksOk, FindOne;
    if Holding(s.tasks[i].pc) && !Holding(s'.tasks[i].pc) {
      FinishKeepsLocks(s, i, s'.tasks[i].pc);
    } else if !Holding(s.tasks[i].pc) && Holding(s'.tasks[i].pc) {
      TakeKeepsLocks(s, i, s'.tasks[i].pc);
    } else {
      assert s'.tasks == s.tasks[i := s'.tasks[i]];
      MoveKeepsLocks(s, s', i);
    }
  }

  lemma StepKeepsWaits(s: System, i: nat)
    requires LocksOk(s) && WaitsOk(s) && Enabled(s, i)
    ensures WaitsOk(Step(s, i))
  {
    hide FindOne;
  }

  /** Two calls that hold locks of the same store hold different ones. */
  lemma MutualExclusion(s: System, i: nat, j: nat)
    requires LocksOk(s) && i < |s.tasks| && j < |s.tasks|
    requires Holding(s.tasks[i].pc) && Holding(s.tasks[j].pc) && LockKey(s.tasks[i]) == LockKey(s.tasks[j])
    ensures i == j
  {}

  // ---------------------------------------------------------------- documents

  ghost predicate HasPair(docs: seq<Doc>, provider: string, subject: string) {
    exists d :: d in docs && d.provider == provider && d.subject == subject
  }

  /** At most one document per (provider, subject). */
  ghost predicate UniqueDocs(docs: seq<Doc>) {
    forall x, y :: 0 <= x < y < |docs| ==> !(docs[x].provider == docs[y].provider && docs[x].subject == docs[y].subject)
  }

  predicate SamePair(a: Task, b: Task) {
    a.provider == b.provider && a.subject == b.subject
  }

  predicate IsValid(t: Task) {
    t.provider != "" && t.subject != ""
  }

  /** Calls for a pair without a document go through one store. */
  ghost predicate OneStorePerPair(s: System) {
    forall i, j :: 0 <= i < |s.tasks| && 0 <= j < |s.tasks| && SamePair(s.tasks[i], s.tasks[j]) && IsValid(s.tasks[i]) ==>
      s.tasks[i].store == s.tasks[j].store || HasPair(s.docs, s.tasks[i].provider, s.tasks[i].subject)
  }

  /** What a call at its program counter knows about the collection. */
  ghost predicate TaskOk(docs: seq<Doc>, t: Task) {
    && (t.pc.Begin? || t.pc.Rejected? || IsValid(t))
    && match t.pc
       case Looked(found) =>
         if found.Some? then Doc(found.value.principalId, t.provider, t.subject) in docs else !HasPair(docs, t.provider, t.subject)
       case Checking(_, conflict) => !conflict && !HasPair(docs, t.provider, t.subject)
       case Pushed => Doc(t.uuid, t.provider, t.subject) in docs
       case Done(p) => Doc(p, t.provider, t.subject) in docs
       case Conflicted => false
       case Reread(_) => false
       case Failed => false
       case _ => true
  }

  ghost predicate Inv(s: System) {
    && LocksOk(s) && WaitsOk(s)
    && UniqueDocs(s.docs) && OneStorePerPair(s)
    && forall i :: 0 <= i < |s.tasks| ==> TaskOk(s.docs, s.tasks[i])
  }

  lemma OwnTaskOk(s: System, i: nat)
    requires Inv(s) && Enabled(s, i)
    ensures TaskOk(Step(s, i).docs, Step(s, i).tasks[i])
  {
    var t := s.tasks[i];
    assert TaskOk(s.docs, t);
    var found := Lookup(s, t);
    if found.Some? {
      assert found.value == Doc(found.value.principalId, t.provider, t.subject);
    }
    hide LocksOk, WaitsOk, UniqueDocs, OneStorePerPair;
  }

  lemma PushedDocs(s: System, i: nat)
    requires Enabled(s, i)
    ensures Step(s, i).docs == s.docs || (Step(s, i).docs == s.docs + [Doc(s.tasks[i].uuid, s.tasks[i].provider, s.tasks[i].subject)]
                                          && (s.tasks[i].pc.Looked? || s.tasks[i].pc.Checking?))
    ensures |Step(s, i).tasks| == |s.tasks|
    ensures forall j :: 0 <= j < |s.tasks| && j != i ==> Step(s, i).tasks[j] == s.tasks[j]
    ensures Step(s, i).tasks[i] == s.tasks[i].(pc := Step(s, i).tasks[i].pc) && Step(s, i).indexes == s.indexes
  {
    hide FindOne;
  }

  /** Only the lock holder pushes, so what others know stays true. */
  lemma OtherTaskOk(s: System, i: nat, j: nat)
    requires Inv(s) && Enabled(s, i) && j < |s.tasks| && j != i
    ensures TaskOk(Step(s, i).docs, s.tasks[j])
  {
    var t, u := s.tasks[i], s.tasks[j];
    assert TaskOk(s.docs, u) && TaskOk(s.docs, t);
    PushedDocs(s, i);
    if Step(s, i).docs != s.docs && SamePair(t, u) && (u.pc.Looked? || u.pc.Checking?) {
      if !HasPair(s.docs, t.provider, t.subject) {
        assert t.store == u.store;
        MutualExclusion(s, i, j);
        assert false;
      }
    }
    hide LocksOk, WaitsOk, UniqueDocs, OneStorePerPair, Step;
  }

  lemma StepKeepsUnique(s: System, i: nat)
    requires Inv(s) && Enabled(s, i)
    ensures UniqueDocs(Step(s, i).docs) && OneStorePerPair(Step(s, i))
  {
    var t := s.tasks[i];
    assert TaskOk(s.docs, t);
    PushedDocs(s, i);
    if Step(s, i).docs != s.docs {
      assert !HasPair(s.docs, t.provider, t.subject) by {
        hide LocksOk, WaitsOk, UniqueDocs, OneStorePerPair;
      }
    }
    assert forall d :: d in s.docs ==> d in Step(s, i).docs;
    hide LocksOk, WaitsOk, Step, TaskOk;
  }

  lemma StepKeepsInv(s: System, i: nat)
    requires Inv(s) && Enabled(s, i)
    ensures Inv(Step(s, i))
  {
    StepKeepsLocks(s, i);
    StepKeepsWaits(s, i);
    StepKeepsUnique(s, i);
    PushedDocs(s, i);
    OwnTaskOk(s, i);
    forall j | 0 <= j < |s.tasks| ensures TaskOk(Step(s, i).docs, Step(s, i).tasks[j]) {
      if j != i { OtherTaskOk(s, i, j); }
    }
    hide LocksOk, WaitsOk, UniqueDocs, OneStorePerPair, Step, TaskOk;
  }

  lemma {:induction false} RunKeepsInv(s: System, schedule: seq<nat>)
    requires Inv(s) && IsSchedule(s, schedule)
    ensures Inv(Run(s, schedule))
    decreases |schedule|
  {
    if schedule != [] {
      StepKeepsInv(s, schedule[0]);
      RunKeepsInv(Step(s, schedule[0]), schedule[1..]);
    }
  }

  /** All calls are about to begin, no lock is taken, and the stored documents are unique. */
  ghost predicate IsFresh(s: System) {
    && s.locks == map[] && UniqueDocs(s.docs)
    && forall i :: 0 <= i < |s.tasks| ==> s.tasks[i].pc == Begin
  }

  /** Every interleaving leaves at most one document per pair, no call fails, and every call that returns has the
      identifier of its pair's document. */
  lemma EveryInterleavingIsSafe(s: System, schedule: seq<nat>)
    requires IsFresh(s) && OneStorePerPair(s) && IsSchedule(s, schedule)
    ensures var r := Run(s, schedule);
      && UniqueDocs(r.docs)
      && (forall i :: 0 <= i < |r.tasks| ==> !r.tasks[i].pc.Failed? && !r.tasks[i].pc.Conflicted?)
      && (forall i :: 0 <= i < |r.tasks| && r.tasks[i].pc.Done? ==>
            Doc(r.tasks[i].pc.principalId, r.tasks[i].provider, r.tasks[i].subject) in r.docs)
  {
    assert Inv(s);
    RunKeepsInv(s, schedule);
    var r := Run(s, schedule);
    hide Run, IsSchedule, LocksOk, WaitsOk, UniqueDocs, OneStorePerPair;
    forall i | 0 <= i < |r.tasks|
      ensures !r.tasks[i].pc.Failed? && !r.tasks[i].pc.Conflicted?
      ensures r.tasks[i].pc.Done? ==> Doc(r.tasks[i].pc.principalId, r.tasks[i].provider, r.tasks[i].subject) in r.docs
    {
      assert TaskOk(r.docs, r.tasks[i]);
    }
  }

  /** All callers for a pair get the same principal. */
  lemma CallersAgree(s: System, schedule: seq<nat>, i: nat, j: nat)
    requires IsFresh(s) && OneStorePerPair(s) && IsSchedule(s, schedule)
    requires i < |Run(s, schedule).tasks| && j < |Run(s, schedule).tasks|
    requires Run(s, schedule).tasks[i].pc.Done? && Run(s, schedule).tasks[j].pc.Done?
    requires SamePair(Run(s, schedule).tasks[i], Run(s, schedule).tasks[j])
    ensures Run(s, schedule).tasks[i].pc == Run(s, schedule).tasks[j].pc
  {
    var r := Run(s, schedule);
    EveryInterleavingIsSafe(s, schedule);
    hide Run, IsSchedule;
    var a, b := r.tasks[i], r.tasks[j];
    var d, e := Doc(a.pc.principalId, a.provider, a.subject), Doc(b.pc.principalId, b.provider, b.subject);
    assert d in r.docs && e in r.docs;
    var x :| 0 <= x < |r.docs| && r.docs[x] == d;
    var y :| 0 <= y < |r.docs| && r.docs[y] == e;
  }

  // ---------------------------------------------------------------- progress and termination

  /** No deadlock: while a call is unfinished, some call can step. */
  lemma SomeCallCanStep(s: System, i: nat)
    requires WaitsOk(s) && i < |s.tasks| && !Finished(s.tasks[i].pc)
    ensures exists j :: Enabled(s, j)
  {
    if s.tasks[i].pc.Waiting? {
      var o := s.tasks[i].pc.owner;
      assert Enabled(s, if Finished(s.tasks[o].pc) then i else o);
    } else {
      assert Enabled(s, i);
    }
  }

  function Unfinished(tasks: seq<Task>): nat {
    if tasks == [] then 0 else Unfinished(tasks[1..]) + if Finished(tasks[0].pc) then 0 else 1
  }

  /** A bound on the steps a call still takes, where `live` calls are unfinished: a wait ends once per finished
      call, and a woken call may have to wait again. */
  function StepsLeft(s: System, live: nat, t: Task): nat {
    match t.pc
    case Begin => 2 * live + s.indexes + 6
    case Ready => 2 * live + s.indexes + 5
    case Waiting(o) => 2 * live + s.indexes + if o < |s.tasks| && Finished(s.tasks[o].pc) then 5 else 4
    case Looked(_) => s.indexes + 4
    case Checking(left, _) => left + 4
    case Conflicted => 3
    case Reread(_) => 2
    case Pushed => 1
    case _ => 0
  }

  function AllStepsLeft(s: System, live: nat, tasks: seq<Task>): nat {
    if tasks == [] then 0 else StepsLeft(s, live, tasks[0]) + AllStepsLeft(s, live, tasks[1..])
  }

  function Potential(s: System): nat {
    AllStepsLeft(s, Unfinished(s.tasks), s.tasks)
  }

  lemma {:induction false} UnfinishedAfter(tasks: seq<Task>, i: nat, t: Task)
    requires i < |tasks| && !Finished(tasks[i].pc)
    ensures Unfinished(tasks[i := t]) == Unfinished(tasks) - if Finished(t.pc) then 1 else 0
  {
    if i == 0 {
      assert tasks[0 := t][1..] == tasks[1..];
    } else {
      assert tasks[i := t][1..] == tasks[1..][i - 1 := t];
      UnfinishedAfter(tasks[1..], i - 1, t);
    }
  }

  lemma {:induction false} PotentialDrops(s: System, s': System, live: nat, live': nat, tasks: seq<Task>, i: nat, t: Task)
    requires i < |tasks|
    requires forall u :: u in tasks ==> StepsLeft(s', live', u) <= StepsLeft(s, live, u)
    requires StepsLeft(s', live', t) < StepsLeft(s, live, tasks[i])
    ensures AllStepsLeft(s', live', tasks[i := t]) < AllStepsLeft(s, live, tasks)
  {
    hide StepsLeft;
    var head := tasks[0];
    assert head in tasks;
    if i == 0 {
      assert tasks[0 := t][1..] == tasks[1..];
      PotentialNoGrowth(s, s', live, live', tasks[1..]);
    } else {
      assert tasks[i := t][1..] == tasks[1..][i - 1 := t];
      PotentialDrops(s, s', live, live', tasks[1..], i - 1, t);
    }
  }

  lemma {:induction false} PotentialNoGrowth(s: System, s': System, live: nat, live': nat, tasks: seq<Task>)
    requires forall u :: u in tasks ==> StepsLeft(s', live', u) <= StepsLeft(s, live, u)
    ensures AllStepsLeft(s', live', tasks) <= AllStepsLeft(s, live, tasks)
  {
    hide StepsLeft;
    if tasks != [] {
      var head := tasks[0];
      assert head in tasks;
      PotentialNoGrowth(s, s', live, live', tasks[1..]);
    }
  }

  /** A call that does not step has no more steps left than before. */
  lemma OthersStepsLeft(s: System, i: nat, u: Task)
    requires Enabled(s, i)
    ensures StepsLeft(Step(s, i), Unfinished(Step(s, i).tasks), u) <= StepsLeft(s, Unfinished(s.tasks), u)
  {
    var s' := Step(s, i);
    PushedDocs(s, i);
    assert s'.tasks == s.tasks[i := s'.tasks[i]];
    UnfinishedAfter(s.tasks, i, s'.tasks[i]);
    hide Step, Unfinished;
  }

  lemma OwnStepsLeft(s: System, i: nat)
    requires LocksOk(s) && Enabled(s, i)
    ensures StepsLeft(Step(s, i), Unfinished(Step(s, i).tasks), Step(s, i).tasks[i]) < StepsLeft(s, Unfinished(s.tasks), s.tasks[i])
  {
    var s' := Step(s, i);
    PushedDocs(s, i);
    assert s'.tasks == s.tasks[i := s'.tasks[i]];
    UnfinishedAfter(s.tasks, i, s'.tasks[i]);
    hide Unfinished, FindOne;
    if s.tasks[i].pc.Ready? || s.tasks[i].pc.Waiting? {
      AcquireStepsLeft(s, i, Unfinished(s.tasks));
    } else {
      hide Acquire, LocksOk;
    }
  }

  lemma AcquireStepsLeft(s: System, i: nat, live: nat)
    requires LocksOk(s) && i < |s.tasks| && (s.tasks[i].pc.Ready? || s.tasks[i].pc.Waiting?)
    ensures StepsLeft(Acquire(s, i), live, Acquire(s, i).tasks[i]) <= 2 * live + s.indexes + 4
  {
    if LockKey(s.tasks[i]) in s.locks {
      var o := s.locks[LockKey(s.tasks[i])];
      assert Acquire(s, i).tasks[o] == s.tasks[o];
    }
    hide FindOne, LockKey;
  }

  /** Every step uses up potential. */
  lemma StepLowersPotential(s: System, i: nat)
    requires LocksOk(s) && WaitsOk(s) && Enabled(s, i)
    ensures Potential(Step(s, i)) < Potential(s)
  {
    var s' := Step(s, i);
    PushedDocs(s, i);
    assert s'.tasks == s.tasks[i := s'.tasks[i]];
    forall u | u in s.tasks ensures StepsLeft(s', Unfinished(s'.tasks), u) <= StepsLeft(s, Unfinished(s.tasks), u) {
      OthersStepsLeft(s, i, u);
    }
    OwnStepsLeft(s, i);
    hide Step, LocksOk, WaitsOk, Unfinished, StepsLeft;
    PotentialDrops(s, s', Unfinished(s.tasks), Unfinished(s'.tasks), s.tasks, i, s'.tasks[i]);
  }

  lemma {:induction false} RunLowersPotential(s: System, schedule: seq<nat>)
    requires LocksOk(s) && WaitsOk(s) && IsSchedule(s, schedule)
    ensures LocksOk(Run(s, schedule)) && WaitsOk(Run(s, schedule))
    ensures |schedule| + Potential(Run(s, schedule)) <= Potential(s)
    decreases |schedule|
  {
    hide LocksOk, WaitsOk, Potential, Step;
    if schedule != [] {
      StepKeepsLocks(s, schedule[0]);
      StepKeepsWaits(s, schedule[0]);
      StepLowersPotential(s, schedule[0]);
      RunLowersPotential(Step(s, schedule[0]), schedule[1..]);
    }
  }

  lemma {:induction false} FreshPotential(s: System, live: nat, tasks: seq<Task>, each: nat)
    requires forall t :: t in tasks ==> t.pc == Begin
    requires each == 2 * live + s.indexes + 6
    ensures AllStepsLeft(s, live, tasks) == |tasks| * each
  {
    if tasks != [] {
      var head := tasks[0];
      assert head in tasks;
      FreshPotential(s, live, tasks[1..], each);
      assert |tasks| * each == (|tasks| - 1) * each + each;
    }
  }

  lemma {:induction false} AllUnfinished(tasks: seq<Task>)
    requires forall t :: t in tasks ==> t.pc == Begin
    ensures Unfinished(tasks) == |tasks|
  {
    if tasks != [] {
      var head := tasks[0];
      assert head in tasks;
      AllUnfinished(tasks[1..]);
    }
  }

  /** Any number of calls through any number of stores: every interleaving is finite, and one that cannot be
      extended has finished every call. */
  lemma EveryInterleavingEnds(s: System, schedule: seq<nat>)
    requires IsFresh(s) && IsSchedule(s, schedule)
    ensures |schedule| <= |s.tasks| * (2 * |s.tasks| + s.indexes + 6)
    ensures var r := Run(s, schedule);
      (forall j :: !Enabled(r, j)) ==> forall i :: 0 <= i < |r.tasks| ==> Finished(r.tasks[i].pc)
  {
    assert LocksOk(s) && WaitsOk(s);
    RunLowersPotential(s, schedule);
    AllUnfinished(s.tasks);
    FreshPotential(s, |s.tasks|, s.tasks, 2 * |s.tasks| + s.indexes + 6);
    var r := Run(s, schedule);
    forall i | 0 <= i < |r.tasks| && forall j :: !Enabled(r, j) ensures Finished(r.tasks[i].pc) {
      if !Finished(r.tasks[i].pc) { SomeCallCanStep(r, i); assert false; }
    }
  }

  // ---------------------------------------------------------------- distinct principals

  ghost predicate HasId(docs: seq<Doc>, id: string) {
    exists d :: d in docs && d.principalId == id
  }

  /** No two documents share an identifier, and calls that have not pushed hold identifiers nobody has. */
  ghost predicate IdsOk(s: System) {
    && (forall x, y :: 0 <= x < y < |s.docs| ==> s.docs[x].principalId != s.docs[y].principalId)
    && (forall i, j :: 0 <= i < j < |s.tasks| ==> s.tasks[i].uuid != s.tasks[j].uuid)
    && (forall i :: 0 <= i < |s.tasks| && !s.tasks[i].pc.Pushed? && !Finished(s.tasks[i].pc) ==> !HasId(s.docs, s.tasks[i].uuid))
  }

  lemma StepKeepsIds(s: System, i: nat)
    requires IdsOk(s) && Enabled(s, i)
    ensures IdsOk(Step(s, i))
  {
    PushedDocs(s, i);
    assert Step(s, i).docs != s.docs ==> Step(s, i).tasks[i].pc.Pushed?;
    hide Step;
  }

  lemma {:induction false} RunKeepsIds(s: System, schedule: seq<nat>)
    requires IdsOk(s) && IsSchedule(s, schedule)
    ensures IdsOk(Run(s, schedule))
    decreases |schedule|
  {
    hide IdsOk, Step;
    if schedule != [] {
      StepKeepsIds(s, schedule[0]);
      RunKeepsIds(Step(s, schedule[0]), schedule[1..]);
    }
  }

  /** What a call has found, pushed or returned is stored under its own pair. */
  ghost predicate IsStored(docs: seq<Doc>, t: Task) {
    match t.pc
    case Looked(found) => found.Some? ==> Doc(found.value.principalId, t.provider, t.subject) in docs
    case Reread(found) => found.Some? ==> Doc(found.value.principalId, t.provider, t.subject) in docs
    case Pushed => Doc(t.uuid, t.provider, t.subject) in docs
    case Done(p) => Doc(p, t.provider, t.subject) in docs
    case _ => true
  }

  ghost predicate AllStored(s: System) {
    forall i :: 0 <= i < |s.tasks| ==> IsStored(s.docs, s.tasks[i])
  }

  lemma StepKeepsStored(s: System, i: nat)
    requires AllStored(s) && Enabled(s, i)
    ensures AllStored(Step(s, i))
  {
    var t := s.tasks[i];
    PushedDocs(s, i);
    var found := Lookup(s, t);
    if found.Some? {
      assert found.value == Doc(found.value.principalId, t.provider, t.subject);
    }
    assert IsStored(s.docs, t);
    assert IsStored(Step(s, i).docs, Step(s, i).tasks[i]);
    hide Step, FindOne;
  }

  lemma {:induction false} RunKeepsStored(s: System, schedule: seq<nat>)
    requires AllStored(s) && IsSchedule(s, schedule)
    ensures AllStored(Run(s, schedule))
    decreases |schedule|
  {
    hide AllStored, Step;
    if schedule != [] {
      StepKeepsStored(s, schedule[0]);
      RunKeepsStored(Step(s, schedule[0]), schedule[1..]);
    }
  }

  lemma {:induction false} SamePairs(s: System, schedule: seq<nat>)
    requires IsSchedule(s, schedule)
    ensures |Run(s, schedule).tasks| == |s.tasks|
    ensures forall i :: 0 <= i < |s.tasks| ==> SamePair(Run(s, schedule).tasks[i], s.tasks[i])
    decreases |schedule|
  {
    if schedule != [] {
      PushedDocs(s, schedule[0]);
      hide Step;
      SamePairs(Step(s, schedule[0]), schedule[1..]);
    }
  }

  /** Minted identifiers being new and different, two finished calls with different pairs have different principals, in
      every interleaving and through whatever stores. */
  lemma PrincipalsStayDistinct(start: System, schedule: seq<nat>, i: nat, j: nat)
    requires IsFresh(start) && IdsOk(start) && IsSchedule(start, schedule)
    requires i < |start.tasks| && j < |start.tasks| && !SamePair(start.tasks[i], start.tasks[j])
    ensures var r := Run(start, schedule);
      && i < |r.tasks| && j < |r.tasks|
      && (r.tasks[i].pc.Done? && r.tasks[j].pc.Done? ==> r.tasks[i].pc.principalId != r.tasks[j].pc.principalId)
  {
    assert AllStored(start);
    RunKeepsStored(start, schedule);
    RunKeepsIds(start, schedule);
    SamePairs(start, schedule);
    var r := Run(start, schedule);
    hide Run, IsSchedule, IsFresh;
    assert IsStored(r.docs, r.tasks[i]) && IsStored(r.docs, r.tasks[j]);
  }

  // ---------------------------------------------------------------- several stores over one collection

  lemma {:induction false} RunSplit(s: System, a: seq<nat>, b: seq<nat>)
    requires IsSchedule(s, a) && IsSchedule(Run(s, a), b)
    ensures IsSchedule(s, a + b) && Run(s, a + b) == Run(Run(s, a), b)
    decreases |a|
  {
    hide Step;
    if a == [] {
      assert a + b == b;
    } else {
      assert (a + b)[1..] == a[1..] + b;
      RunSplit(Step(s, a[0]), a[1..], b);
    }
  }

  lemma OneStep(s: System, i: nat)
    requires Enabled(s, i)
    ensures IsSchedule(s, [i]) && Run(s, [i]) == Step(s, i)
  {
    assert [i][1..] == [];
  }

  lemma TwoSteps(s: System, i: nat, j: nat)
    requires Enabled(s, i) && Enabled(Step(s, i), j)
    ensures IsSchedule(s, [i, j]) && Run(s, [i, j]) == Step(Step(s, i), j)
  {
    OneStep(s, i);
    OneStep(Step(s, i), j);
    RunSplit(s, [i], [j]);
    assert [i] + [j] == [i, j];
  }

  /** The next step of call `i` pushes. */
  predicate AboutToPush(s: System, i: nat) {
    i < |s.tasks| && s.tasks[i].pc == if s.indexes == 0 then Looked(None) else Checking(0, false)
  }

  /** `schedule` takes call `i` alone from `s` to the point where it is about to push. */
  ghost predicate Advances(s: System, i: nat, schedule: seq<nat>, r: System) {
    && IsSchedule(s, schedule) && Run(s, schedule) == r
    && AboutToPush(r, i) && |s.tasks| == |r.tasks| && i < |s.tasks|
    && r == s.(tasks := s.tasks[i := s.tasks[i].(pc := r.tasks[i].pc)], locks := s.locks[LockKey(s.tasks[i]) := i])
  }

  lemma NothingFound(docs: seq<Doc>, provider: string, subject: string)
    requires !HasPair(docs, provider, subject)
    ensures FindOne(docs, provider, subject) == None
  {}

  lemma {:induction false} ChecksPass(s: System, i: nat)
    requires i < |s.tasks| && s.tasks[i].pc.Checking? && !s.tasks[i].pc.conflict && s.indexes > 0
    requires !HasPair(s.docs, s.tasks[i].provider, s.tasks[i].subject)
    requires LockKey(s.tasks[i]) in s.locks && s.locks[LockKey(s.tasks[i])] == i
    ensures exists schedule, r :: Advances(s, i, schedule, r)
    decreases s.tasks[i].pc.left
  {
    NothingFound(s.docs, s.tasks[i].provider, s.tasks[i].subject);
    assert s.locks[LockKey(s.tasks[i]) := i] == s.locks;
    if s.tasks[i].pc.left == 0 {
      assert s.tasks[i := s.tasks[i].(pc := s.tasks[i].pc)] == s.tasks;
      assert Advances(s, i, [], s);
    } else {
      ChecksPass(Step(s, i), i);
      var rest, r :| Advances(Step(s, i), i, rest, r);
      assert ([i] + rest)[1..] == rest;
      assert Advances(s, i, [i] + rest, r);
    }
  }

  /** A call for a pair without a document, with its lock free, can run up to its push. */
  lemma CanAdvance(s: System, i: nat)
    requires i < |s.tasks| && s.tasks[i].pc == Begin && IsValid(s.tasks[i]) && LockKey(s.tasks[i]) !in s.locks
    requires !HasPair(s.docs, s.tasks[i].provider, s.tasks[i].subject)
    ensures exists schedule, r :: Advances(s, i, schedule, r)
  {
    var t := s.tasks[i];
    NothingFound(s.docs, t.provider, t.subject);
    var s1 := Step(s, i);
    assert s1 == Goto(s, i, Ready);
    var s2 := Step(s1, i);
    assert s2 == s.(tasks := s.tasks[i := t.(pc := Looked(None))], locks := s.locks[LockKey(t) := i]);
    TwoSteps(s, i, i);
    if s.indexes == 0 {
      assert Advances(s, i, [i, i], s2);
    } else {
      var s3 := Step(s2, i);
      assert s3 == s.(tasks := s.tasks[i := t.(pc := Checking(s.indexes - 1, false))], locks := s.locks[LockKey(t) := i]);
      OneStep(s2, i);
      hide Step;
      RunSplit(s, [i, i], [i]);
      ChecksPass(s3, i);
      var rest, r :| Advances(s3, i, rest, r);
      RunSplit(s, [i, i] + [i], rest);
      assert Advances(s, i, [i, i] + [i] + rest, r);
    }
  }

  lemma BothPush(s: System, i: nat, j: nat)
    requires AboutToPush(s, i) && AboutToPush(s, j) && i != j && SamePair(s.tasks[i], s.tasks[j])
    ensures IsSchedule(s, [i, j]) && !UniqueDocs(Run(s, [i, j]).docs)
  {
    TwoSteps(s, i, j);
    var docs, n := Step(Step(s, i), j).docs, |s.docs|;
    assert docs[n].provider == docs[n + 1].provider && docs[n].subject == docs[n + 1].subject;
  }

  /** Two calls for one new pair through different stores can both pass the checks and both push. */
  lemma TwoStoresClash(s: System, i: nat, j: nat)
    requires IsFresh(s) && i < |s.tasks| && j < |s.tasks| && SamePair(s.tasks[i], s.tasks[j]) && IsValid(s.tasks[i])
    requires s.tasks[i].store != s.tasks[j].store && !HasPair(s.docs, s.tasks[i].provider, s.tasks[i].subject)
    ensures exists schedule :: IsSchedule(s, schedule) && !UniqueDocs(Run(s, schedule).docs)
  {
    CanAdvance(s, i);
    var first, r1 :| Advances(s, i, first, r1);
    CanAdvance(r1, j);
    var second, r2 :| Advances(r1, j, second, r2);
    RunSplit(s, first, second);
    hide Step, FindOne, Run, IsSchedule, HasPair;
    assert AboutToPush(r2, i) && AboutToPush(r2, j);
    hide AboutToPush, UniqueDocs, IsFresh;
    BothPush(r2, i, j);
    RunSplit(s, first + second, [i, j]);
  }

  /** Started with free locks: every interleaving keeps at most one document per pair exactly when all calls
      for a pair without a document go through one store, because the lock map belongs to a store while the
      uniqueness check and the push are separate steps. */
  lemma SafeIffOneStorePerPair(s: System)
    requires IsFresh(s)
    ensures (forall schedule :: IsSchedule(s, schedule) ==> UniqueDocs(Run(s, schedule).docs)) <==> OneStorePerPair(s)
  {
    if OneStorePerPair(s) {
      forall schedule | IsSchedule(s, schedule) ensures UniqueDocs(Run(s, schedule).docs) {
        EveryInterleavingIsSafe(s, schedule);
      }
    } else {
      var i, j :| 0 <= i < |s.tasks| && 0 <= j < |s.tasks| && SamePair(s.tasks[i], s.tasks[j]) && IsValid(s.tasks[i])
        && s.tasks[i].store != s.tasks[j].store && !HasPair(s.docs, s.tasks[i].provider, s.tasks[i].subject);
      TwoStoresClash(s, i, j);
    }
  }
}

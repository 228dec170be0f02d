/** How every `getOrCreatePrincipal` call of packages/api/src/auth/identity-store.js is answered in the end. */
module IdentityOutcome {
  import opened Collections
  import opened IdentityStore

  /** A pair that had a document keeps its first one. */
  lemma {:induction false} FirstStays(docs: seq<Doc>, more: seq<Doc>, provider: string, subject: string)
    requires HasPair(docs, provider, subject)
    ensures FindOne(docs + more, provider, subject) == FindOne(docs, provider, subject)
    ensures FindOne(docs, provider, subject).Some?
    decreases |docs|
  {
    assert docs != [];
    assert (docs + more)[1..] == docs[1..] + more;
    if !(docs[0].provider == provider && docs[0].subject == subject) {
      assert docs == [docs[0]] + docs[1..];
      FirstStays(docs[1..], more, provider, subject);
    }
  }

  /** What a call is on its way to answer, `known` being the documents at the start. */
  ghost predicate OnItsWay(known: seq<Doc>, docs: seq<Doc>, t: Task) {
    && (t.pc.Rejected? ==> !IsValid(t))
    && (!IsValid(t) ==> t.pc.Begin? || t.pc.Rejected?)
    && !t.pc.Failed?
    && (t.pc.Checking? && t.pc.conflict ==> HasPair(docs, t.provider, t.subject))
    && (t.pc.Conflicted? ==> HasPair(docs, t.provider, t.subject))
    && (t.pc.Reread? ==> t.pc.found.Some?)
    && (HasPair(known, t.provider, t.subject) ==>
          && !t.pc.Checking? && !t.pc.Conflicted? && !t.pc.Reread? && !t.pc.Pushed?
          && (t.pc.Looked? ==> t.pc.found == FindOne(known, t.provider, t.subject))
          && (t.pc.Done? ==> Some(t.pc.principalId) == PrincipalIn(known, t)))
  }

  /** The principal of the first document of the call's pair. */
  function PrincipalIn(docs: seq<Doc>, t: Task): Option<string> {
    var found := FindOne(docs, t.provider, t.subject);
    if found.Some? then Some(found.value.principalId) else None
  }

  /** A document that a call has added for its pair, which had none. */
  ghost predicate IsAdded(known: seq<Doc>, tasks: seq<Task>, d: Doc) {
    !HasPair(known, d.provider, d.subject) && exists i :: 0 <= i < |tasks| && IsMade(tasks[i], d)
  }

  predicate IsMade(t: Task, d: Doc) {
    IsValid(t) && d == Doc(t.uuid, t.provider, t.subject)
  }

  ghost predicate AnswersOk(known: seq<Doc>, s: System) {
    && known <= s.docs
    && (forall k :: |known| <= k < |s.docs| ==> IsAdded(known, s.tasks, s.docs[k]))
    && forall i :: 0 <= i < |s.tasks| ==> OnItsWay(known, s.docs, s.tasks[i])
  }

  lemma OwnWayOfKnown(known: seq<Doc>, s: System, i: nat)
    requires known <= s.docs && Enabled(s, i) && OnItsWay(known, s.docs, s.tasks[i])
    requires HasPair(known, s.tasks[i].provider, s.tasks[i].subject)
    ensures OnItsWay(known, Step(s, i).docs, Step(s, i).tasks[i]) && Step(s, i).docs == s.docs
  {
    var t := s.tasks[i];
    assert s.docs == known + s.docs[|known|..];
    FirstStays(known, s.docs[|known|..], t.provider, t.subject);
    hide FindOne, LockKey;
  }

  lemma OwnWay(known: seq<Doc>, s: System, i: nat)
    requires known <= s.docs && Enabled(s, i) && OnItsWay(known, s.docs, s.tasks[i])
    ensures OnItsWay(known, Step(s, i).docs, Step(s, i).tasks[i])
    ensures Step(s, i).docs != s.docs ==> IsValid(s.tasks[i]) && !HasPair(known, s.tasks[i].provider, s.tasks[i].subject)
  {
    var t := s.tasks[i];
    if HasPair(known, t.provider, t.subject) {
      OwnWayOfKnown(known, s, i);
      hide Step, OnItsWay, HasPair;
    } else {
      if HasPair(s.docs, t.provider, t.subject) { FirstStays(s.docs, [], t.provider, t.subject); }
      hide FindOne, LockKey;
    }
  }

  lemma StepKeepsAnswers(known: seq<Doc>, s: System, i: nat)
    requires AnswersOk(known, s) && Enabled(s, i)
    ensures AnswersOk(known, Step(s, i))
  {
    var s' := Step(s, i);
    PushedDocs(s, i);
    assert OnItsWay(known, s.docs, s.tasks[i]);
    OwnWay(known, s, i);
    hide Step, FindOne;
    forall j | 0 <= j < |s'.tasks| ensures OnItsWay(known, s'.docs, s'.tasks[j]) {
      if j != i { assert OnItsWay(known, s.docs, s.tasks[j]); }
    }
    hide OnItsWay;
    forall k | |known| <= k < |s'.docs| ensures IsAdded(known, s'.tasks, s'.docs[k]) {
      if k < |s.docs| {
        var j :| 0 <= j < |s.tasks| && IsMade(s.tasks[j], s.docs[k]);
        assert IsMade(s'.tasks[j], s'.docs[k]);
      } else {
        assert IsMade(s'.tasks[i], s'.docs[k]);
      }
    }
  }

  lemma {:induction false} RunKeepsAnswers(known: seq<Doc>, s: System, schedule: seq<nat>)
    requires AnswersOk(known, s) && IsSchedule(s, schedule)
    ensures AnswersOk(known, Run(s, schedule))
    decreases |schedule|
  {
    hide AnswersOk, Step;
    if schedule != [] {
      StepKeepsAnswers(known, s, schedule[0]);
      RunKeepsAnswers(known, Step(s, schedule[0]), schedule[1..]);
    }
  }

  /** The call is the one started with, at another program counter. */
  predicate SameCall(t: Task, u: Task) {
    u == t.(pc := u.pc)
  }

  lemma {:induction false} SameCalls(s: System, schedule: seq<nat>)
    requires IsSchedule(s, schedule)
    ensures |Run(s, schedule).tasks| == |s.tasks|
    ensures forall i :: 0 <= i < |s.tasks| ==> SameCall(s.tasks[i], Run(s, schedule).tasks[i])
    decreases |schedule|
  {
    if schedule != [] {
      PushedDocs(s, schedule[0]);
      hide Step;
      SameCalls(Step(s, schedule[0]), schedule[1..]);
    }
  }

  // ---------------------------------------------------------------- in every interleaving

  /** In every interleaving, through whatever stores: a call is rejected only for an empty provider or subject, such a
      call gets no further, and no call fails. */
  lemma RejectedOnlyIfInvalid(start: System, schedule: seq<nat>, i: nat)
    requires IsFresh(start) && IsSchedule(start, schedule) && i < |start.tasks|
    ensures var r := Run(start, schedule);
      && i < |r.tasks| && SameCall(start.tasks[i], r.tasks[i])
      && (r.tasks[i].pc.Rejected? ==> start.tasks[i].provider == "" || start.tasks[i].subject == "")
      && (start.tasks[i].provider == "" || start.tasks[i].subject == "" ==> r.tasks[i].pc.Begin? || r.tasks[i].pc.Rejected?)
      && !r.tasks[i].pc.Failed?
  {
    RunKeepsAnswers(start.docs, start, schedule);
    SameCalls(start, schedule);
    hide Run, IsSchedule;
    assert OnItsWay(start.docs, Run(start, schedule).docs, Run(start, schedule).tasks[i]);
  }

  /** Nobody can step any more. */
  ghost predicate IsOver(s: System) {
    forall i :: !Enabled(s, i)
  }

  /** Every call with a provider and a subject returns a principal, and no other one does, through whatever stores. */
  lemma EveryCallReturns(start: System, schedule: seq<nat>, i: nat)
    requires IsFresh(start) && IsSchedule(start, schedule) && IsOver(Run(start, schedule)) && i < |start.tasks|
    ensures var r := Run(start, schedule);
      i < |r.tasks| && if start.tasks[i].provider != "" && start.tasks[i].subject != "" then r.tasks[i].pc.Done? else r.tasks[i].pc.Rejected?
  {
    RejectedOnlyIfInvalid(start, schedule, i);
    EveryInterleavingEnds(start, schedule);
    hide Run, IsSchedule, IsFresh;
  }

  /** A pair that had a document: its calls return that document's principal, and it gets no other document. */
  lemma KnownPairKeepsItsPrincipal(start: System, schedule: seq<nat>, i: nat, d: Doc)
    requires IsFresh(start) && IsSchedule(start, schedule) && i < |start.tasks|
    requires d in start.docs && d.provider == start.tasks[i].provider && d.subject == start.tasks[i].subject
    ensures var r := Run(start, schedule);
      && i < |r.tasks| && (r.tasks[i].pc.Done? ==> r.tasks[i].pc.principalId == d.principalId)
      && start.docs <= r.docs
      && forall k :: |start.docs| <= k < |r.docs| ==> !(r.docs[k].provider == d.provider && r.docs[k].subject == d.subject)
  {
    RunKeepsAnswers(start.docs, start, schedule);
    SameCalls(start, schedule);
    var r, t := Run(start, schedule), start.tasks[i];
    hide Run, IsSchedule;
    assert OnItsWay(start.docs, r.docs, r.tasks[i]);
    FirstStays(start.docs, [], t.provider, t.subject);
    OneFirst(start.docs, d, FindOne(start.docs, t.provider, t.subject).value);
    forall k | |start.docs| <= k < |r.docs| ensures !(r.docs[k].provider == d.provider && r.docs[k].subject == d.subject) {
      assert IsAdded(start.docs, r.tasks, r.docs[k]);
    }
  }

  lemma OneFirst(docs: seq<Doc>, d: Doc, e: Doc)
    requires UniqueDocs(docs) && d in docs && e in docs && d.provider == e.provider && d.subject == e.subject
    ensures d == e
  {
    var x :| 0 <= x < |docs| && docs[x] == d;
    var y :| 0 <= y < |docs| && docs[y] == e;
  }

  /** The document at `k` is the only one of its pair. */
  ghost predicate IsOnly(docs: seq<Doc>, k: nat) {
    k < |docs| && forall x :: 0 <= x < |docs| && x != k ==> !(docs[x].provider == docs[k].provider && docs[x].subject == docs[k].subject)
  }

  /** A pair that had none: when its calls go through one store, exactly one document is added for it, made by one of
      them, and that call's new identifier is what all of them return. */
  lemma NewPairGetsOnePrincipal(start: System, schedule: seq<nat>, i: nat)
    requires IsFresh(start) && OneStorePerPair(start) && IsSchedule(start, schedule) && i < |start.tasks|
    requires !HasPair(start.docs, start.tasks[i].provider, start.tasks[i].subject)
    requires i < |Run(start, schedule).tasks| && Run(start, schedule).tasks[i].pc.Done?
    ensures var r, t := Run(start, schedule), start.tasks[i];
      exists j, k ::
        && 0 <= j < |start.tasks| && SamePair(start.tasks[j], t) && r.tasks[i].pc == Done(start.tasks[j].uuid)
        && |start.docs| <= k < |r.docs| && r.docs[k] == Doc(start.tasks[j].uuid, t.provider, t.subject) && IsOnly(r.docs, k)
  {
    RunKeepsAnswers(start.docs, start, schedule);
    SameCalls(start, schedule);
    EveryInterleavingIsSafe(start, schedule);
    var r, t := Run(start, schedule), start.tasks[i];
    hide Run, IsSchedule, IsFresh, OneStorePerPair;
    var d := Doc(r.tasks[i].pc.principalId, t.provider, t.subject);
    assert d in r.docs;
    var k :| 0 <= k < |r.docs| && r.docs[k] == d;
    if k < |start.docs| { assert false; }
    assert IsAdded(start.docs, r.tasks, r.docs[k]);
    var j :| 0 <= j < |r.tasks| && IsMade(r.tasks[j], d);
    assert SameCall(start.tasks[j], r.tasks[j]);
    assert IsOnly(r.docs, k);
  }

  // ---------------------------------------------------------------- the unique index

  /** The call has yet to meet the document of its pair: at an index check, or when it reads again after one. */
  ghost predicate IsCaught(docs: seq<Doc>, indexes: nat, t: Task) {
    && HasPair(docs, t.provider, t.subject)
    && match t.pc
       case Looked(found) => found.Some? || indexes > 0
       case Checking(left, conflict) => conflict || left > 0
       case Conflicted => true
       case Reread(found) => found == FindOne(docs, t.provider, t.subject)
       case Done(p) => true
       case _ => false
  }

  /** It has taken, or will take, the first document's principal. */
  ghost predicate TakesFirst(docs: seq<Doc>, t: Task) {
    && (t.pc.Looked? && t.pc.found.Some? ==> Some(t.pc.found.value.principalId) == PrincipalIn(docs, t))
    && (t.pc.Done? ==> Some(t.pc.principalId) == PrincipalIn(docs, t))
  }

  lemma StepKeepsCaught(s: System, i: nat, j: nat)
    requires j < |s.tasks| && IsCaught(s.docs, s.indexes, s.tasks[j]) && TakesFirst(s.docs, s.tasks[j]) && Enabled(s, i)
    ensures var s' := Step(s, i);
      && j < |s'.tasks| && s'.indexes == s.indexes
      && IsCaught(s'.docs, s'.indexes, s'.tasks[j]) && TakesFirst(s'.docs, s'.tasks[j])
  {
    var t := s.tasks[j];
    PushedDocs(s, i);
    FirstStays(s.docs, [], t.provider, t.subject);
    if Step(s, i).docs != s.docs { FirstStays(s.docs, [Doc(s.tasks[i].uuid, s.tasks[i].provider, s.tasks[i].subject)], t.provider, t.subject); }
    hide FindOne, LockKey;
  }

  lemma {:induction false} RunKeepsCaught(s: System, schedule: seq<nat>, j: nat)
    requires j < |s.tasks| && IsCaught(s.docs, s.indexes, s.tasks[j]) && TakesFirst(s.docs, s.tasks[j]) && IsSchedule(s, schedule)
    ensures var r := Run(s, schedule);
      j < |r.tasks| && IsCaught(r.docs, r.indexes, r.tasks[j]) && TakesFirst(r.docs, r.tasks[j])
    decreases |schedule|
  {
    if schedule != [] {
      StepKeepsCaught(s, schedule[0], j);
      hide IsCaught, TakesFirst, Step;
      RunKeepsCaught(Step(s, schedule[0]), schedule[1..], j);
    }
  }

  /** What the index catches, whatever the stores: a call that found nothing, but whose pair has a document before its last
      check, adds none; in every interleaving it returns the first document's principal if anything. */
  lemma IndexCatches(s: System, schedule: seq<nat>, j: nat)
    requires j < |s.tasks| && IsSchedule(s, schedule) && HasPair(s.docs, s.tasks[j].provider, s.tasks[j].subject)
    requires (s.tasks[j].pc == Looked(None) && s.indexes > 0) || (s.tasks[j].pc.Checking? && s.tasks[j].pc.left > 0)
    ensures var r := Run(s, schedule);
      && j < |r.tasks| && !r.tasks[j].pc.Pushed? && !r.tasks[j].pc.Failed?
      && (r.tasks[j].pc.Done? ==> Some(r.tasks[j].pc.principalId) == PrincipalIn(r.docs, r.tasks[j]))
  {
    RunKeepsCaught(s, schedule, j);
    hide Run, IsSchedule;
  }

  // ---------------------------------------------------------------- who waits for whom

  /** A waiting call waits for one with its own lock key. */
  ghost predicate WaitsForOwnKey(s: System) {
    forall i :: 0 <= i < |s.tasks| && s.tasks[i].pc.Waiting? ==>
      s.tasks[i].pc.owner < |s.tasks| && LockKey(s.tasks[s.tasks[i].pc.owner]) == LockKey(s.tasks[i])
  }

  lemma StepKeepsWaiting(s: System, i: nat)
    requires LocksOk(s) && WaitsForOwnKey(s) && Enabled(s, i)
    ensures WaitsForOwnKey(Step(s, i))
  {
    PushedDocs(s, i);
    hide FindOne, LockKey;
  }

  lemma {:induction false} RunKeepsWaiting(s: System, schedule: seq<nat>)
    requires LocksOk(s) && WaitsForOwnKey(s) && IsSchedule(s, schedule)
    ensures WaitsForOwnKey(Run(s, schedule))
    decreases |schedule|
  {
    if schedule != [] {
      StepKeepsLocks(s, schedule[0]);
      StepKeepsWaiting(s, schedule[0]);
      hide LocksOk, WaitsForOwnKey, Step;
      RunKeepsWaiting(Step(s, schedule[0]), schedule[1..]);
    }
  }

  lemma LongerHasColon(p: string, a: string, q: string, b: string)
    ensures p + ":" + a == q + ":" + b && |p| < |q| ==> ':' in q
  {
    if p + ":" + a == q + ":" + b && |p| < |q| {
      assert (p + ":" + a)[|p|] == ':' && (q + ":" + b)[|p|] == q[|p|];
    }
  }

  lemma SamePairOfKey(p: string, a: string, q: string, b: string)
    requires p + ":" + a == q + ":" + b && ':' !in p && ':' !in q
    ensures p == q && a == b
  {
    LongerHasColon(p, a, q, b);
    LongerHasColon(q, b, p, a);
    var key := p + ":" + a;
    assert key[..|p|] == p && key[|p| + 1..] == a;
    assert (q + ":" + b)[..|q|] == q && (q + ":" + b)[|q| + 1..] == b;
  }

  /** Calls for different pairs never wait for each other: who waits does so for a call of the same store and the same pair,
      at least when providers have no colon, as those there are. */
  lemma OnlySamePairWaits(start: System, schedule: seq<nat>, i: nat)
    requires IsFresh(start) && IsSchedule(start, schedule)
    requires i < |Run(start, schedule).tasks| && Run(start, schedule).tasks[i].pc.Waiting?
    ensures var r := Run(start, schedule); var o := r.tasks[i].pc.owner;
      && o < |r.tasks| && r.tasks[o].store == r.tasks[i].store
      && (':' !in r.tasks[o].provider && ':' !in r.tasks[i].provider ==> SamePair(r.tasks[o], r.tasks[i]))
  {
    assert LocksOk(start) && WaitsForOwnKey(start);
    RunKeepsWaiting(start, schedule);
    var r := Run(start, schedule);
    hide Run, IsSchedule, IsFresh, LocksOk;
    var t, u := r.tasks[i], r.tasks[r.tasks[i].pc.owner];
    assert LockKey(u) == LockKey(t);
    if ':' !in u.provider && ':' !in t.provider { SamePairOfKey(u.provider, u.subject, t.provider, t.subject); }
  }
}

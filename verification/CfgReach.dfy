/** The reachability search of audit/cfg-auditor.js over the recorded states: a worklist, and the paths it follows. */
module CfgReach {
  import opened Collections
  import opened CfgTree

  type States = OrderedMap<int, State>

  /** Every state is filed under its own id. */
  ghost predicate FiledById(states: States) {
    && states.WellFormed()
    && forall id :: id in states.items ==> states.items[id].id == id
  }

  lemma {:induction false} TraverseFilesById(t: Tree, range: Range, r: Recorder)
    requires FiledById(r.states)
    ensures FiledById(Traverse(t, range, r).states)
  {
    match t
    case Leaf(block) =>
      var id := StateId(range, r.counter + 1);
      SetKeepsWellFormed(r.states, id, State(id, range, block));
    case Test(threshold, low, high) =>
      TraverseFilesById(low, Range(range.lo, Either(threshold, range.hi)), r);
      if high.Some? {
        TraverseFilesById(high.value, Range(Either(threshold, range.lo), range.hi),
                          Traverse(low, Range(range.lo, Either(threshold, range.hi)), r));
      }
  }

  // ---------------------------------------------------------------- edges and paths

  function TargetId(states: States, q: int): Option<int> {
    var s := FindBlockForState(states, q);
    if s.None? then None else Some(s.value.id)
  }

  lemma {:induction false} FindInIsFiled(states: States, order: seq<int>, q: int)
    requires FiledById(states)
    ensures FindIn(states, order, q).Some? ==>
              FindIn(states, order, q).value.id in states.items
              && states.items[FindIn(states, order, q).value.id] == FindIn(states, order, q).value
  {
    if order != [] {
      var head := order[0];
      assert head in states.items ==> states.items[head].id == head;
      FindInIsFiled(states, order[1..], q);
    }
  }

  predicate IsJump(block: Block, q: int) {
    Unconditional(q) in block.transitions || Conditional(q) in block.transitions
  }

  predicate IsDynamic(block: Block) {
    RuntimeDependent in block.transitions || Unresolved in block.transitions
  }

  /** Block `a` unconditionally transfers to block `b`. */
  ghost predicate SureStep(states: States, a: int, b: int) {
    a in states.items && exists q :: Unconditional(q) in states.items[a].block.transitions && TargetId(states, q) == Some(b)
  }

  /** Block `a` may transfer to block `b`, or creates a closure that enters it. */
  ghost predicate MayStep(states: States, a: int, b: int) {
    a in states.items && exists q :: (IsJump(states.items[a].block, q) || q in states.items[a].block.closures) && TargetId(states, q) == Some(b)
  }

  ghost predicate SurePath(states: States, p: seq<int>) {
    p != [] && forall i :: 0 < i < |p| ==> SureStep(states, p[i - 1], p[i])
  }

  ghost predicate MayPath(states: States, p: seq<int>) {
    p != [] && forall i :: 0 < i < |p| ==> MayStep(states, p[i - 1], p[i])
  }

  ghost predicate SurelyReached(states: States, root: Option<int>, b: int) {
    root.Some? && exists p :: SurePath(states, p) && p[0] == root.value && p[|p| - 1] == b
  }

  ghost predicate MaybeReached(states: States, root: Option<int>, b: int) {
    root.Some? && exists p :: MayPath(states, p) && p[0] == root.value && p[|p| - 1] == b
  }

  lemma RootReached(states: States, root: int)
    ensures SurelyReached(states, Some(root), root) && MaybeReached(states, Some(root), root)
  {
    assert SurePath(states, [root]) && [root][0] == root && [root][|[root]| - 1] == root;
    assert MayPath(states, [root]);
  }

  lemma SureStepReaches(states: States, root: Option<int>, a: int, b: int)
    requires SurelyReached(states, root, a) && SureStep(states, a, b)
    ensures SurelyReached(states, root, b)
  {
    var p :| SurePath(states, p) && p[0] == root.value && p[|p| - 1] == a;
    assert SurePath(states, p + [b]) && (p + [b])[0] == root.value && (p + [b])[|p + [b]| - 1] == b;
  }

  lemma MayStepReaches(states: States, root: Option<int>, a: int, b: int)
    requires MaybeReached(states, root, a) && MayStep(states, a, b)
    ensures MaybeReached(states, root, b)
  {
    var p :| MayPath(states, p) && p[0] == root.value && p[|p| - 1] == a;
    assert MayPath(states, p + [b]) && (p + [b])[0] == root.value && (p + [b])[|p + [b]| - 1] == b;
  }

  /** A set that has the root and is closed under sure steps has every surely reached block. */
  lemma ClosedUnderSure(states: States, root: Option<int>, closed: set<int>)
    requires root.Some? ==> root.value in closed
    requires forall a, b :: a in closed && SureStep(states, a, b) ==> b in closed
    ensures forall b :: SurelyReached(states, root, b) ==> b in closed
  {
    forall b | SurelyReached(states, root, b) ensures b in closed {
      var p :| SurePath(states, p) && p[0] == root.value && p[|p| - 1] == b;
      SurePathStays(states, p, closed, |p| - 1);
    }
  }

  lemma {:induction false} SurePathStays(states: States, p: seq<int>, closed: set<int>, i: nat)
    requires SurePath(states, p) && p[0] in closed && i < |p|
    requires forall a, b :: a in closed && SureStep(states, a, b) ==> b in closed
    ensures p[i] in closed
  {
    if i > 0 {
      SurePathStays(states, p, closed, i - 1);
      assert SureStep(states, p[i - 1], p[i]);
    }
  }

  lemma ClosedUnderMay(states: States, root: Option<int>, closed: set<int>)
    requires root.Some? ==> root.value in closed
    requires forall a, b :: a in closed && MayStep(states, a, b) ==> b in closed
    ensures forall b :: MaybeReached(states, root, b) ==> b in closed
  {
    forall b | MaybeReached(states, root, b) ensures b in closed {
      var p :| MayPath(states, p) && p[0] == root.value && p[|p| - 1] == b;
      MayPathStays(states, p, closed, |p| - 1);
    }
  }

  lemma {:induction false} MayPathStays(states: States, p: seq<int>, closed: set<int>, i: nat)
    requires MayPath(states, p) && p[0] in closed && i < |p|
    requires forall a, b :: a in closed && MayStep(states, a, b) ==> b in closed
    ensures p[i] in closed
  {
    if i > 0 {
      MayPathStays(states, p, closed, i - 1);
      assert MayStep(states, p[i - 1], p[i]);
    }
  }

  // ---------------------------------------------------------------- one worklist step

  /** The search so far; a queue entry is a block and whether it is to be visited as proven. */
  datatype Work = Work(proven: set<int>, conditional: set<int>, unknown: set<int>, queue: seq<(int, bool)>) {
    function Found(): set<int> {
      proven + conditional
    }
  }

  function FollowSure(w: Work, b: int): Work {
    if b in w.proven then w else w.(proven := w.proven + {b}, queue := w.queue + [(b, true)])
  }

  function FollowMaybe(w: Work, b: int): Work {
    if b in w.proven || b in w.conditional then w
    else w.(conditional := w.conditional + {b}, queue := w.queue + [(b, false)])
  }

  function FollowTransition(states: States, id: int, certain: bool, t: Transition, w: Work): Work {
    match t
    case Unconditional(q) =>
      var b := TargetId(states, q);
      if b.None? then w else if certain then FollowSure(w, b.value) else FollowMaybe(w, b.value)
    case Conditional(q) =>
      var b := TargetId(states, q);
      if b.None? then w else FollowMaybe(w, b.value)
    case RuntimeDependent => w.(unknown := w.unknown + {id})
    case Unresolved => w.(unknown := w.unknown + {id})
    case Terminal => w
  }

  function FollowTransitions(states: States, id: int, certain: bool, ts: seq<Transition>, w: Work): Work
    decreases |ts|
  {
    if ts == [] then w
    else FollowTransitions(states, id, certain, ts[1..], FollowTransition(states, id, certain, ts[0], w))
  }

  function FollowClosure(states: States, q: int, w: Work): Work {
    var b := TargetId(states, q);
    if b.None? then w else FollowMaybe(w, b.value)
  }

  function FollowClosures(states: States, qs: seq<int>, w: Work): Work
    decreases |qs|
  {
    if qs == [] then w else FollowClosures(states, qs[1..], FollowClosure(states, qs[0], w))
  }

  function Visit(states: States, id: int, certain: bool, w: Work): Work
    requires id in states.items
  {
    var block := states.items[id].block;
    FollowClosures(states, block.closures, FollowTransitions(states, id, certain, block.transitions, w))
  }

  // ---------------------------------------------------------------- what a step keeps

  /** Everything found is justified, and everything queued was found. */
  ghost predicate Justified(states: States, root: Option<int>, w: Work) {
    && w.Found() <= states.items.Keys
    && (forall b :: b in w.proven ==> SurelyReached(states, root, b))
    && (forall b :: b in w.Found() ==> MaybeReached(states, root, b))
    && (forall b :: b in w.unknown ==> b in w.Found() && IsDynamic(states.items[b].block))
    && (forall e :: e in w.queue ==> e.0 in w.Found() && (e.1 ==> e.0 in w.proven))
  }

  /** The search only grows, every newly found block is queued, and the queue grows only with new finds. */
  ghost predicate Grows(w: Work, w': Work) {
    && w.proven <= w'.proven && w.conditional <= w'.conditional && w.unknown <= w'.unknown
    && (forall e :: e in w.queue ==> e in w'.queue)
    && (forall b :: b in w'.proven && b !in w.proven ==> (b, true) in w'.queue)
    && (forall b :: b in w'.conditional && b !in w.conditional ==> (b, false) in w'.queue)
    && (w'.queue == w.queue || |w'.proven| + |w'.conditional| > |w.proven| + |w.conditional|)
    && |w'.proven| + |w'.conditional| >= |w.proven| + |w.conditional|
  }

  lemma GrowsTransitive(a: Work, b: Work, c: Work)
    requires Grows(a, b) && Grows(b, c)
    ensures Grows(a, c)
  {}

  lemma FollowSureGrows(w: Work, b: int)
    ensures Grows(w, FollowSure(w, b)) && b in FollowSure(w, b).proven
  {}

  lemma FollowMaybeGrows(w: Work, b: int)
    ensures Grows(w, FollowMaybe(w, b)) && b in FollowMaybe(w, b).Found()
  {}

  /** What following the assignments of a block with these targets must find. */
  ghost predicate Covers(states: States, id: int, certain: bool, t: Transition, w: Work) {
    match t
    case Unconditional(q) =>
      var b := TargetId(states, q);
      b.Some? ==> b.value in w.Found() && (certain ==> b.value in w.proven)
    case Conditional(q) =>
      var b := TargetId(states, q);
      b.Some? ==> b.value in w.Found()
    case Terminal => true
    case _ => id in w.unknown
  }

  lemma FollowSureKeeps(states: States, root: Option<int>, w: Work, b: int)
    requires Justified(states, root, w) && b in states.items
    requires SurelyReached(states, root, b) && MaybeReached(states, root, b)
    ensures Justified(states, root, FollowSure(w, b))
  {
    hide SurelyReached, MaybeReached, IsDynamic;
  }

  lemma FollowMaybeKeeps(states: States, root: Option<int>, w: Work, b: int)
    requires Justified(states, root, w) && b in states.items
    requires MaybeReached(states, root, b)
    ensures Justified(states, root, FollowMaybe(w, b))
  {
    hide SurelyReached, MaybeReached, IsDynamic;
  }

  lemma MarkUnknownKeeps(states: States, root: Option<int>, id: int, w: Work)
    requires Justified(states, root, w) && id in w.Found() && IsDynamic(states.items[id].block)
    ensures Justified(states, root, w.(unknown := w.unknown + {id})) && Grows(w, w.(unknown := w.unknown + {id}))
  {
    hide SurelyReached, MaybeReached, IsDynamic;
  }

  lemma FollowTransitionKeeps(states: States, root: Option<int>, id: int, certain: bool, t: Transition, w: Work)
    requires FiledById(states) && Justified(states, root, w)
    requires id in w.Found() && (certain ==> id in w.proven) && t in states.items[id].block.transitions
    ensures var w' := FollowTransition(states, id, certain, t, w);
      Justified(states, root, w') && Grows(w, w') && Covers(states, id, certain, t, w')
  {
    assert MaybeReached(states, root, id) && (certain ==> SurelyReached(states, root, id));
    if t.Unconditional? || t.Conditional? {
      FindInIsFiled(states, states.order, t.target);
      var b := TargetId(states, t.target);
      if b.Some? {
        assert IsJump(states.items[id].block, t.target);
        assert MayStep(states, id, b.value);
        assert t.Unconditional? ==> SureStep(states, id, b.value);
        hide Justified, SureStep, MayStep;
        MayStepReaches(states, root, id, b.value);
        FollowMaybeGrows(w, b.value);
        FollowSureGrows(w, b.value);
        if t.Unconditional? && certain {
          SureStepReaches(states, root, id, b.value);
          FollowSureKeeps(states, root, w, b.value);
        } else {
          FollowMaybeKeeps(states, root, w, b.value);
        }
        hide SurelyReached, MaybeReached, TargetId, FiledById, IsDynamic, FollowSure, FollowMaybe;
      }
    } else if !t.Terminal? {
      assert IsDynamic(states.items[id].block);
      MarkUnknownKeeps(states, root, id, w);
      hide Justified, SurelyReached, MaybeReached;
    }
  }

  lemma CoversStays(states: States, id: int, certain: bool, t: Transition, w: Work, w': Work)
    requires Covers(states, id, certain, t, w) && Grows(w, w')
    ensures Covers(states, id, certain, t, w')
  {
    hide TargetId;
  }

  lemma {:induction false} FollowTransitionsKeeps(states: States, root: Option<int>, id: int, certain: bool, ts: seq<Transition>, w: Work)
    requires FiledById(states) && Justified(states, root, w)
    requires id in w.Found() && (certain ==> id in w.proven)
    requires forall t :: t in ts ==> t in states.items[id].block.transitions
    ensures var w' := FollowTransitions(states, id, certain, ts, w);
      && Justified(states, root, w') && Grows(w, w')
      && forall t :: t in ts ==> Covers(states, id, certain, t, w')
    decreases |ts|
  {
    hide Justified, FiledById, Covers, FollowTransition;
    if ts != [] {
      var w1 := FollowTransition(states, id, certain, ts[0], w);
      FollowTransitionKeeps(states, root, id, certain, ts[0], w);
      FollowTransitionsKeeps(states, root, id, certain, ts[1..], w1);
      var w' := FollowTransitions(states, id, certain, ts, w);
      GrowsTransitive(w, w1, w');
      CoversStays(states, id, certain, ts[0], w1, w');
      forall t | t in ts ensures Covers(states, id, certain, t, w') {
        if t != ts[0] { assert t in ts[1..]; }
      }
    }
  }

  ghost predicate CoversClosure(states: States, q: int, w: Work) {
    var b := TargetId(states, q);
    b.Some? ==> b.value in w.Found()
  }

  lemma FollowClosureKeeps(states: States, root: Option<int>, id: int, q: int, w: Work)
    requires FiledById(states) && Justified(states, root, w)
    requires id in w.Found() && q in states.items[id].block.closures
    ensures var w' := FollowClosure(states, q, w);
      Justified(states, root, w') && Grows(w, w') && CoversClosure(states, q, w')
  {
    FindInIsFiled(states, states.order, q);
    assert MaybeReached(states, root, id);
    var b := TargetId(states, q);
    if b.Some? {
      assert MayStep(states, id, b.value);
      hide Justified, MayStep;
      MayStepReaches(states, root, id, b.value);
      FollowMaybeGrows(w, b.value);
      FollowMaybeKeeps(states, root, w, b.value);
      hide SurelyReached, MaybeReached, TargetId, FiledById, IsDynamic, FollowMaybe;
    }
  }

  lemma {:induction false} FollowClosuresKeeps(states: States, root: Option<int>, id: int, qs: seq<int>, w: Work)
    requires FiledById(states) && Justified(states, root, w)
    requires id in w.Found()
    requires forall q :: q in qs ==> q in states.items[id].block.closures
    ensures var w' := FollowClosures(states, qs, w);
      && Justified(states, root, w') && Grows(w, w')
      && forall q :: q in qs ==> CoversClosure(states, q, w')
    decreases |qs|
  {
    hide Justified, FiledById, FollowClosure, TargetId;
    if qs != [] {
      var w1 := FollowClosure(states, qs[0], w);
      FollowClosureKeeps(states, root, id, qs[0], w);
      FollowClosuresKeeps(states, root, id, qs[1..], w1);
      var w' := FollowClosures(states, qs, w);
      GrowsTransitive(w, w1, w');
      forall q | q in qs ensures CoversClosure(states, q, w') {
        if q != qs[0] { assert q in qs[1..]; }
      }
    }
  }

  // ---------------------------------------------------------------- the search invariant

  ghost predicate SureDone(states: States, w: Work, a: int) {
    forall b :: SureStep(states, a, b) ==> b in w.proven
  }

  ghost predicate MayDone(states: States, w: Work, a: int) {
    && (forall b :: MayStep(states, a, b) ==> b in w.Found())
    && (a in states.items && IsDynamic(states.items[a].block) ==> a in w.unknown)
  }

  /** Every found block is waiting to be visited or its successors have been found. */
  ghost predicate Frontier(states: States, w: Work) {
    && (forall a :: a in w.proven ==> (a, true) in w.queue || SureDone(states, w, a))
    && (forall a :: a in w.Found() ==> (a, true) in w.queue || (a, false) in w.queue || MayDone(states, w, a))
  }

  ghost predicate SearchInv(states: States, root: Option<int>, w: Work) {
    && FiledById(states)
    && Justified(states, root, w)
    && Frontier(states, w)
    && (root.Some? ==> root.value in w.proven)
    && (root.None? ==> w.Found() == {})
  }

  lemma VisitKeeps(states: States, root: Option<int>, id: int, certain: bool, w: Work)
    requires FiledById(states) && Justified(states, root, w)
    requires id in w.Found() && (certain ==> id in w.proven)
    ensures id in states.items
    ensures var w' := Visit(states, id, certain, w);
      && Justified(states, root, w') && Grows(w, w')
      && MayDone(states, w', id) && (certain ==> SureDone(states, w', id))
  {
    var block := states.items[id].block;
    var w1 := FollowTransitions(states, id, certain, block.transitions, w);
    var w' := Visit(states, id, certain, w);
    FollowTransitionsKeeps(states, root, id, certain, block.transitions, w);
    assert id in w1.Found();
    FollowClosuresKeeps(states, root, id, block.closures, w1);
    GrowsTransitive(w, w1, w');
    forall t | t in block.transitions ensures Covers(states, id, certain, t, w') {
      CoversStays(states, id, certain, t, w1, w');
    }
    VisitedIsDone(states, id, certain, w');
  }

  lemma VisitedIsDone(states: States, id: int, certain: bool, w: Work)
    requires id in states.items
    requires forall t :: t in states.items[id].block.transitions ==> Covers(states, id, certain, t, w)
    requires forall q :: q in states.items[id].block.closures ==> CoversClosure(states, q, w)
    ensures MayDone(states, w, id) && (certain ==> SureDone(states, w, id))
  {
    hide TargetId;
    var block := states.items[id].block;
    forall b | MayStep(states, id, b) ensures b in w.Found() {
      var q :| (IsJump(block, q) || q in block.closures) && TargetId(states, q) == Some(b);
      if q in block.closures {
        assert CoversClosure(states, q, w);
      } else if Unconditional(q) in block.transitions {
        assert Covers(states, id, certain, Unconditional(q), w);
      } else {
        assert Covers(states, id, certain, Conditional(q), w);
      }
    }
    if certain {
      forall b | SureStep(states, id, b) ensures b in w.proven {
        var q :| Unconditional(q) in block.transitions && TargetId(states, q) == Some(b);
        assert Covers(states, id, certain, Unconditional(q), w);
      }
    }
    if RuntimeDependent in block.transitions { assert Covers(states, id, certain, RuntimeDependent, w); }
    if Unresolved in block.transitions { assert Covers(states, id, certain, Unresolved, w); }
  }

  lemma StepKeepsSearch(states: States, root: Option<int>, w: Work)
    requires SearchInv(states, root, w) && w.queue != []
    ensures w.queue[0].0 in states.items
    ensures var popped := w.(queue := w.queue[1..]); var w' := Visit(states, w.queue[0].0, w.queue[0].1, popped);
      SearchInv(states, root, w') && Grows(popped, w')
  {
    var (id, certain) := w.queue[0];
    var popped := w.(queue := w.queue[1..]);
    assert (id, certain) in w.queue;
    assert Justified(states, root, popped) by {
      assert forall e :: e in popped.queue ==> e in w.queue;
      hide SurelyReached, MaybeReached, IsDynamic;
    }
    VisitKeeps(states, root, id, certain, popped);
    hide Justified, FiledById, Visit;
    FrontierMoves(states, w, Visit(states, id, certain, popped), id, certain);
  }

  lemma FrontierMoves(states: States, w: Work, w': Work, id: int, certain: bool)
    requires Frontier(states, w) && w.queue != [] && w.queue[0] == (id, certain)
    requires Grows(w.(queue := w.queue[1..]), w')
    requires MayDone(states, w', id) && (certain ==> SureDone(states, w', id))
    ensures Frontier(states, w')
  {
    hide SureStep, MayStep, IsDynamic;
    assert forall e :: e in w.queue ==> e == (id, certain) || e in w.queue[1..];
    forall a | a in w'.proven ensures (a, true) in w'.queue || SureDone(states, w', a) {}
    forall a | a in w'.Found() ensures (a, true) in w'.queue || (a, false) in w'.queue || MayDone(states, w', a) {}
  }

  /** What the search computes. */
  ghost predicate IsSearchResult(states: States, root: Option<int>, w: Work) {
    && (forall b :: b in w.proven <==> SurelyReached(states, root, b))
    && (forall b :: b in w.Found() <==> MaybeReached(states, root, b))
    && (forall b :: b in w.unknown <==> MaybeReached(states, root, b) && b in states.items && IsDynamic(states.items[b].block))
  }

  lemma EmptyQueueIsResult(states: States, root: Option<int>, w: Work)
    requires SearchInv(states, root, w) && w.queue == []
    ensures IsSearchResult(states, root, w)
  {
    forall a, b | a in w.proven && SureStep(states, a, b) ensures b in w.proven {
      assert SureDone(states, w, a);
    }
    forall a, b | a in w.Found() && MayStep(states, a, b) ensures b in w.Found() {
      assert MayDone(states, w, a);
    }
    forall a | a in w.Found() ensures MayDone(states, w, a) {}
    hide SureStep, MayStep, SureDone;
    ClosedUnderSure(states, root, w.proven);
    ClosedUnderMay(states, root, w.Found());
    hide SurelyReached, MaybeReached;
  }

  lemma FoundIsBounded(states: States, root: Option<int>, w: Work)
    requires Justified(states, root, w)
    ensures |w.proven| + |w.conditional| <= 2 * |states.items|
  {
    assert w.proven <= states.items.Keys && w.conditional <= states.items.Keys;
    SubsetSize(w.proven, states.items.Keys);
    SubsetSize(w.conditional, states.items.Keys);
  }

  lemma {:induction false} SubsetSize(a: set<int>, b: set<int>)
    requires a <= b
    ensures |a| <= |b|
  {
    assert b == a + (b - a);
  }

  // ---------------------------------------------------------------- the search as it runs

  method VisitBlock(states: States, id: int, certain: bool, w: Work) returns (w': Work)
    requires id in states.items
    ensures w' == Visit(states, id, certain, w)
  {
    var block := states.items[id].block;
    w' := w;
    for i := 0 to |block.transitions|
      invariant FollowTransitions(states, id, certain, block.transitions[i..], w')
             == FollowTransitions(states, id, certain, block.transitions, w)
    {
      assert block.transitions[i..][1..] == block.transitions[i + 1..];
      w' := FollowTransition(states, id, certain, block.transitions[i], w');
    }
    ghost var followed := w';
    for i := 0 to |block.closures|
      invariant FollowClosures(states, block.closures[i..], w') == FollowClosures(states, block.closures, followed)
    {
      assert block.closures[i..][1..] == block.closures[i + 1..];
      w' := FollowClosure(states, block.closures[i], w');
    }
  }

  /** The search ends, having found exactly the blocks reached by unconditional transitions alone as proven,
      exactly the blocks reached by any resolved transition or closure in all, and exactly the reached
      blocks with dynamic transitions as unknown. */
  method Search(states: States, root: Option<int>) returns (w: Work)
    requires FiledById(states) && (root.Some? ==> root.value in states.items)
    ensures IsSearchResult(states, root, w)
    ensures w.Found() <= states.items.Keys
  {
    w := Work({}, {}, {}, []);
    if root.Some? {
      RootReached(states, root.value);
      w := Work({root.value}, {}, {}, [(root.value, true)]);
    }
    while w.queue != []
      invariant SearchInv(states, root, w)
      decreases 2 * |states.items| - |w.proven| - |w.conditional|, |w.queue|
    {
      StepKeepsSearch(states, root, w);
      FoundIsBounded(states, root, w);
      var (id, certain) := w.queue[0];
      var popped := w.(queue := w.queue[1..]);
      var next := VisitBlock(states, id, certain, popped);
      FoundIsBounded(states, root, next);
      w := next;
    }
    EmptyQueueIsResult(states, root, w);
  }
}

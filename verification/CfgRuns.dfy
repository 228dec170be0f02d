/** Runs of a dispatcher, and when the verdict "proven unreachable" of audit/cfg-auditor.js can be trusted. */
module CfgRuns {
  import opened Collections
  import opened CfgTree
  import opened CfgReach
  import opened CfgVerdict

  // ---------------------------------------------------------------- runs

  /** The dispatcher variable is `q` and the tests lead to leaf `leaf`. */
  datatype Arrival = Arrival(q: int, leaf: nat)

  /** After entering `block` with value `q0`, the program may evaluate the tests at `q`: nothing was
      assigned, a resolved transition was taken, a closure made here was called, or the value is dynamic. */
  predicate Offers(block: Block, q0: int, q: int) {
    q == q0 || IsJump(block, q) || q in block.closures || IsDynamic(block)
  }

  ghost predicate IsRun(t: Tree, run: seq<Arrival>) {
    if run == [] then true
    else
      var before, last := run[..|run| - 1], run[|run| - 1];
      && IsRun(t, before)
      && last.leaf < LeafCount(t) && Reaches(t, last.q, last.leaf)
      && if before == [] then last.q == ROOT_ENTRY_STATE
         else exists a :: a in before && a.leaf < LeafCount(t) && Offers(Blocks(t)[a.leaf], a.q, last.q)
  }

  function LeafIds(t: Tree): (r: seq<int>)
    ensures |r| == LeafCount(t)
  {
    Ids(Ranges(t, EVERYTHING))
  }

  /** No later leaf gets the same id: the state recorded under it is this leaf. */
  ghost predicate Kept(t: Tree, i: nat) {
    i < LeafCount(t) && LastOf(LeafIds(t), i)
  }

  ghost predicate LastOf(ids: seq<int>, i: int) {
    0 <= i < |ids| && forall j :: i < j < |ids| ==> ids[j] != ids[i]
  }

  /** The audit of `t` reports leaf `i` as proven unreachable. Overwritten leaves are not in the report. */
  ghost predicate Condemned(t: Tree, i: nat)
    requires i < LeafCount(t)
  {
    Kept(t, i) && LeafIds(t)[i] in StatesOf(t).items && Judged(StatesOf(t), LeafIds(t)[i], ProvenUnreachable)
  }

  /** No run visits a block reported as proven unreachable. */
  ghost predicate VerdictsHold(t: Tree) {
    forall run: seq<Arrival>, a: Arrival :: IsRun(t, run) && a in run && a.leaf < LeafCount(t) ==> !Condemned(t, a.leaf)
  }

  // ---------------------------------------------------------------- resolving a value

  /** The first recorded interval that has `q`. */
  function First(ranges: seq<Range>, q: int): (r: Option<nat>)
    ensures r.Some? ==> r.value < |ranges| && ranges[r.value].Has(q)
    ensures forall i :: 0 <= i < |ranges| && (r.Some? ==> i < r.value) ==> !ranges[i].Has(q)
  {
    if ranges == [] then None
    else if ranges[0].Has(q) then Some(0)
    else
      var rest := First(ranges[1..], q);
      assert forall i :: 0 < i < |ranges| ==> ranges[i] == ranges[1..][i - 1];
      if rest.None? then None else Some(rest.value + 1)
  }

  /** With distinct ids `findBlockForState` resolves a value to the first leaf whose interval has it. */
  lemma TargetIsFirst(t: Tree, q: int)
    requires NoDup(LeafIds(t))
    ensures var f := First(Ranges(t, EVERYTHING), q);
      TargetId(StatesOf(t), q) == if f.None? then None else Some(LeafIds(t)[f.value])
  {
    var ranges, states, f := Ranges(t, EVERYTHING), StatesOf(t), First(Ranges(t, EVERYTHING), q);
    LeavesAreRecorded(t);
    forall j | 0 <= j < |ranges| ensures states.order[j] in states.items && states.items[states.order[j]].range == ranges[j] {
      assert Ids(ranges)[j] in Ids(ranges);
    }
    hide Records, Traverse, Ranges, Ids;
    if f.Some? {
      FindInFirst(states, states.order, q, f.value);
    } else {
      FindInNone(states, states.order, q);
    }
  }

  // ---------------------------------------------------------------- the recorded leaves

  /** Exactly the last leaf of every id is recorded, with its interval and block. */
  ghost predicate KeepsLast(r: Recorder, ranges: seq<Range>, blocks: seq<Block>)
    requires |ranges| == |blocks|
  {
    r.counter == |ranges| && HasLast(r.states.items, Ids(ranges), ranges, blocks) && OnlyLast(r.states.items, Ids(ranges))
  }

  ghost predicate HasLast(items: map<int, State>, ids: seq<int>, ranges: seq<Range>, blocks: seq<Block>)
    requires |ids| == |ranges| == |blocks|
  {
    forall i :: LastOf(ids, i) ==> ids[i] in items && items[ids[i]] == State(ids[i], ranges[i], blocks[i])
  }

  ghost predicate OnlyLast(items: map<int, State>, ids: seq<int>) {
    forall id :: id in items ==> exists i :: LastOf(ids, i) && ids[i] == id
  }

  lemma LastOfSnoc(ids: seq<int>, id: int)
    ensures LastOf(ids + [id], |ids|)
    ensures forall i :: 0 <= i < |ids| ==> (LastOf(ids + [id], i) <==> LastOf(ids, i) && ids[i] != id)
  {
    var more := ids + [id];
    forall i | 0 <= i < |ids| ensures LastOf(more, i) <==> LastOf(ids, i) && ids[i] != id {
      assert more[|ids|] == id;
      if LastOf(more, i) {
        forall j | i < j < |ids| ensures ids[j] != ids[i] { assert more[j] == ids[j]; }
      }
    }
  }

  lemma HasOneMore(items: map<int, State>, ids: seq<int>, ranges: seq<Range>, blocks: seq<Block>, id: int, range: Range, block: Block)
    requires |ids| == |ranges| == |blocks| && HasLast(items, ids, ranges, blocks)
    ensures HasLast(items[id := State(id, range, block)], ids + [id], ranges + [range], blocks + [block])
  {
    LastOfSnoc(ids, id);
    forall i | LastOf(ids + [id], i) ensures 0 <= i <= |ids| { LastOfIndex(ids + [id], i); }
    hide LastOf;
  }

  lemma OnlyOneMore(items: map<int, State>, ids: seq<int>, id: int, state: State)
    requires OnlyLast(items, ids)
    ensures OnlyLast(items[id := state], ids + [id])
  {
    LastOfSnoc(ids, id);
    var items', ids' := items[id := state], ids + [id];
    forall x | x in items' ensures exists i :: LastOf(ids', i) && ids'[i] == x {
      if x == id {
        assert LastOf(ids', |ids|);
      } else {
        var i :| LastOf(ids, i) && ids[i] == x;
        LastOfIndex(ids, i);
        assert LastOf(ids', i);
      }
    }
  }

  lemma KeepOneMore(r: Recorder, ranges: seq<Range>, blocks: seq<Block>, range: Range, block: Block)
    requires |ranges| == |blocks| && KeepsLast(r, ranges, blocks)
    ensures KeepsLast(RecordLeaf(r, range, block), ranges + [range], blocks + [block])
  {
    var id := StateId(range, |ranges| + 1);
    assert Ids(ranges + [range]) == Ids(ranges) + [id];
    hide LastOf, StateId, Ids;
    HasOneMore(r.states.items, Ids(ranges), ranges, blocks, id, range, block);
    OnlyOneMore(r.states.items, Ids(ranges), id, State(id, range, block));
    hide HasLast, OnlyLast;
  }

  lemma LastOfIndex(ids: seq<int>, i: int)
    requires LastOf(ids, i)
    ensures 0 <= i < |ids|
  {}

  lemma {:induction false} RecordAllKeeps(r: Recorder, done: seq<Range>, ranges: seq<Range>, doneBlocks: seq<Block>, blocks: seq<Block>)
    requires |done| == |doneBlocks| && |ranges| == |blocks| && KeepsLast(r, done, doneBlocks)
    ensures KeepsLast(RecordAll(r, ranges, blocks), done + ranges, doneBlocks + blocks)
    decreases |ranges|
  {
    hide KeepsLast, RecordLeaf;
    if ranges == [] {
      assert done + ranges == done && doneBlocks + blocks == doneBlocks;
    } else {
      KeepOneMore(r, done, doneBlocks, ranges[0], blocks[0]);
      assert done + ranges == (done + [ranges[0]]) + ranges[1..];
      assert doneBlocks + blocks == (doneBlocks + [blocks[0]]) + blocks[1..];
      RecordAllKeeps(RecordLeaf(r, ranges[0], blocks[0]), done + [ranges[0]], ranges[1..], doneBlocks + [blocks[0]], blocks[1..]);
    }
  }

  lemma {:induction false} LastLeavesAreRecorded(t: Tree)
    ensures KeepsLast(Traverse(t, EVERYTHING, NO_STATES), Ranges(t, EVERYTHING), Blocks(t))
  {
    var ranges := Ranges(t, EVERYTHING);
    TraverseRecordsAll(t, EVERYTHING, NO_STATES);
    assert [] + ranges == ranges && [] + Blocks(t) == Blocks(t);
    assert KeepsLast(NO_STATES, [], []);
    RecordAllKeeps(NO_STATES, [], ranges, [], Blocks(t));
  }

  lemma KeptIsRecorded(t: Tree, i: nat)
    requires Kept(t, i)
    ensures var id := LeafIds(t)[i]; var states := StatesOf(t);
      id in states.items && states.items[id] == State(id, Ranges(t, EVERYTHING)[i], Blocks(t)[i])
  {
    LastLeavesAreRecorded(t);
    hide LastOf, Ids, Ranges, Traverse;
  }

  lemma RecordedIsKept(t: Tree, id: int)
    requires id in StatesOf(t).items
    ensures exists i: nat :: Kept(t, i) && LeafIds(t)[i] == id && StatesOf(t).items[id].block == Blocks(t)[i]
  {
    LastLeavesAreRecorded(t);
    hide Ids, Ranges, Traverse;
    var i :| LastOf(LeafIds(t), i) && LeafIds(t)[i] == id;
    assert Kept(t, i);
  }

  // ---------------------------------------------------------------- trustworthy tests

  function Target(t: Tree, q: int): Option<int> {
    TargetId(StatesOf(t), q)
  }

  /** The audit resolves the root entry or the value `q` to leaf `i`. */
  predicate Aims(t: Tree, q: int, i: nat)
    requires i < LeafCount(t)
  {
    Target(t, ROOT_ENTRY_STATE) == Some(LeafIds(t)[i]) || Target(t, q) == Some(LeafIds(t)[i])
  }

  /** Some value leads to the leaf, and the audit knows it. */
  ghost predicate Visible(t: Tree, i: nat) {
    Kept(t, i) && exists q :: Reaches(t, q, i)
  }

  /** The audit aims at where a value leads. A leaf that it has overwritten can jump anywhere, so a value that
      leads to one has to aim at every leaf there is. */
  ghost predicate AimsRight(t: Tree, q: int, j: nat) {
    if Kept(t, j) then Aims(t, q, j) else forall i :: Visible(t, i) ==> Aims(t, q, i)
  }

  /** If the tests can be entered at all, every value aims where it leads. */
  ghost predicate ResolvesLeaves(t: Tree) {
    (exists r: nat :: Reaches(t, ROOT_ENTRY_STATE, r)) ==> forall q: int, j: nat :: Reaches(t, q, j) ==> AimsRight(t, q, j)
  }

  // ---------------------------------------------------------------- trustworthy verdicts

  /** The value was resolved, if at all, to a block the audit reached. */
  ghost predicate ResolvedReached(t: Tree, q: int) {
    var b := Target(t, q);
    b.Some? ==> MaybeReached(StatesOf(t), Target(t, ROOT_ENTRY_STATE), b.value)
  }

  ghost predicate LeafReached(t: Tree, i: nat)
    requires i < LeafCount(t)
  {
    MaybeReached(StatesOf(t), Target(t, ROOT_ENTRY_STATE), LeafIds(t)[i])
  }

  ghost predicate NoDynamicReached(t: Tree) {
    var states := StatesOf(t);
    forall b :: MaybeReached(states, Target(t, ROOT_ENTRY_STATE), b) && b in states.items ==> !IsDynamic(states.items[b].block)
  }

  lemma RootIsReached(t: Tree)
    ensures ResolvedReached(t, ROOT_ENTRY_STATE)
  {
    var root := Target(t, ROOT_ENTRY_STATE);
    if root.Some? { RootReached(StatesOf(t), root.value); }
  }

  /** What a reached block offers is resolved to reached blocks. */
  lemma {:induction false} OffersReached(t: Tree, a: Arrival, q: int)
    requires Kept(t, a.leaf) && NoDynamicReached(t)
    requires LeafReached(t, a.leaf) && ResolvedReached(t, a.q)
    requires Offers(Blocks(t)[a.leaf], a.q, q)
    ensures ResolvedReached(t, q)
  {
    var states, id := StatesOf(t), LeafIds(t)[a.leaf];
    KeptIsRecorded(t, a.leaf);
    var b := Target(t, q);
    if b.Some? && q != a.q {
      assert !IsDynamic(states.items[id].block);
      assert MayStep(states, id, b.value);
      MayStepReaches(states, Target(t, ROOT_ENTRY_STATE), id, b.value);
    }
  }

  lemma AimedIsReached(t: Tree, q: int, i: nat)
    requires i < LeafCount(t) && Aims(t, q, i) && ResolvedReached(t, q)
    ensures LeafReached(t, i)
  {
    RootIsReached(t);
    hide MaybeReached, Target;
  }

  ghost predicate AllReached(t: Tree) {
    forall i :: Visible(t, i) ==> LeafReached(t, i)
  }

  /** The audit has seen this arrival. */
  ghost predicate IsSeen(t: Tree, a: Arrival) {
    Kept(t, a.leaf) && LeafReached(t, a.leaf) && ResolvedReached(t, a.q)
  }

  lemma {:induction false} LastArrivalSeen(t: Tree, a: Arrival)
    requires AimsRight(t, a.q, a.leaf) && ResolvedReached(t, a.q)
    ensures AllReached(t) || IsSeen(t, a)
  {
    hide ResolvedReached, LeafReached, Aims;
    if Kept(t, a.leaf) {
      AimedIsReached(t, a.q, a.leaf);
    } else {
      forall i | Visible(t, i) ensures LeafReached(t, i) {
        AimedIsReached(t, a.q, i);
      }
    }
  }

  /** Either the audit has seen all arrivals, or everything it knows of is reached. */
  lemma {:induction false} ArrivalsReached(t: Tree, run: seq<Arrival>)
    requires ResolvesLeaves(t) && NoDynamicReached(t) && IsRun(t, run)
    ensures AllReached(t) || forall a :: a in run ==> IsSeen(t, a)
    ensures run != [] ==> exists r: nat :: Reaches(t, ROOT_ENTRY_STATE, r)
    decreases |run|
  {
    if run != [] {
      var before, last := run[..|run| - 1], run[|run| - 1];
      assert run == before + [last];
      ArrivalsReached(t, before);
      hide LeafReached, ResolvedReached, NoDynamicReached, LeafIds, Kept, AllReached, AimsRight;
      if !AllReached(t) {
        if before == [] {
          RootIsReached(t);
        } else {
          var a :| a in before && a.leaf < LeafCount(t) && Offers(Blocks(t)[a.leaf], a.q, last.q);
          OffersReached(t, a, last.q);
        }
        assert Reaches(t, last.q, last.leaf);
        LastArrivalSeen(t, last);
      }
    }
  }

  lemma VisitedIsReached(t: Tree, run: seq<Arrival>, a: Arrival)
    requires ResolvesLeaves(t) && NoDynamicReached(t) && IsRun(t, run) && a in run && Kept(t, a.leaf)
    ensures LeafReached(t, a.leaf)
  {
    ArrivalsReached(t, run);
    ArrivalsAreReal(t, run, a);
    assert Visible(t, a.leaf);
    hide IsRun, ResolvesLeaves, NoDynamicReached, MaybeReached;
  }

  /** Whatever the blocks do, if the audit resolves the leaves then no run visits a block it reports as proven
      unreachable. */
  lemma ResolvedVerdictsHold(t: Tree)
    requires ResolvesLeaves(t)
    ensures VerdictsHold(t)
  {
    forall run: seq<Arrival>, a: Arrival | IsRun(t, run) && a in run && a.leaf < LeafCount(t) ensures !Condemned(t, a.leaf) {
      if Condemned(t, a.leaf) {
        KeptIsRecorded(t, a.leaf);
        ArrivalsAreReal(t, run, a);
        RangesOverApproximate(t, EVERYTHING, a.q, a.leaf);
        assert Isolated(StatesOf(t), LeafIds(t)[a.leaf]);
        assert NoDynamicReached(t);
        VisitedIsReached(t, run, a);
        assert false;
      }
    }
  }

  lemma {:induction false} ArrivalsAreReal(t: Tree, run: seq<Arrival>, a: Arrival)
    requires IsRun(t, run) && a in run
    ensures a.leaf < LeafCount(t) && Reaches(t, a.q, a.leaf)
    decreases |run|
  {
    var before, last := run[..|run| - 1], run[|run| - 1];
    assert run == before + [last];
    if a != last { ArrivalsAreReal(t, before, a); }
  }

  /** With distinct ids every leaf is kept. */
  lemma DistinctAreKept(t: Tree, i: nat)
    requires NoDup(LeafIds(t)) && i < LeafCount(t)
    ensures Kept(t, i)
  {}

  /** Strictly nested thresholds are enough. */
  lemma ProperVerdictsHold(t: Tree)
    requires IsProper(t, EVERYTHING)
    ensures NoDup(LeafIds(t)) && ResolvesLeaves(t) && VerdictsHold(t)
  {
    ProperIdsDiffer(t);
    var ranges := Ranges(t, EVERYTHING);
    forall q: int, i: nat | Reaches(t, q, i) ensures AimsRight(t, q, i) {
      ReachesALeaf(t, q, i);
      RangesAreExact(t, EVERYTHING, q, i);
      var j := First(ranges, q).value;
      RangesAreExact(t, EVERYTHING, q, j);
      ReachesOne(t, EVERYTHING, q, i, j);
      TargetIsFirst(t, q);
      DistinctAreKept(t, i);
    }
    ResolvedVerdictsHold(t);
  }

  // ---------------------------------------------------------------- and only then

  /** The same tests over other blocks. */
  function Fill(t: Tree, blocks: seq<Block>): Tree
    requires |blocks| == LeafCount(t)
  {
    match t
    case Leaf(_) => Leaf(blocks[0])
    case Test(threshold, low, high) =>
      var n := LeafCount(low);
      Test(threshold, Fill(low, blocks[..n]), if high.None? then None else Some(Fill(high.value, blocks[n..])))
  }

  lemma {:induction false} FillKeepsRanges(t: Tree, blocks: seq<Block>, range: Range)
    requires |blocks| == LeafCount(t)
    ensures Ranges(Fill(t, blocks), range) == Ranges(t, range)
  {
    match t
    case Leaf(_) =>
    case Test(threshold, low, high) =>
      var n := LeafCount(low);
      FillKeepsRanges(low, blocks[..n], Range(range.lo, Either(threshold, range.hi)));
      if high.Some? {
        FillKeepsRanges(high.value, blocks[n..], Range(Either(threshold, range.lo), range.hi));
      }
  }

  lemma {:induction false} FillKeepsCount(t: Tree, blocks: seq<Block>)
    requires |blocks| == LeafCount(t)
    ensures LeafCount(Fill(t, blocks)) == LeafCount(t)
  {
    match t
    case Leaf(_) =>
    case Test(_, low, high) =>
      FillKeepsCount(low, blocks[..LeafCount(low)]);
      if high.Some? { FillKeepsCount(high.value, blocks[LeafCount(low)..]); }
  }

  lemma {:induction false} FillKeepsShape(t: Tree, blocks: seq<Block>)
    requires |blocks| == LeafCount(t)
    ensures LeafCount(Fill(t, blocks)) == LeafCount(t) && Blocks(Fill(t, blocks)) == blocks
  {
    FillKeepsCount(t, blocks);
    match t
    case Leaf(_) =>
    case Test(_, low, high) =>
      var first, rest := blocks[..LeafCount(low)], blocks[LeafCount(low)..];
      assert blocks == first + rest;
      FillKeepsShape(low, first);
      if high.Some? {
        FillKeepsShape(high.value, rest);
        hide LeafCount;
      } else {
        assert Blocks(Fill(t, blocks)) == first + [];
      }
  }

  lemma {:induction false} FillKeepsReaches(t: Tree, blocks: seq<Block>, q: int, i: nat)
    requires |blocks| == LeafCount(t)
    ensures Reaches(Fill(t, blocks), q, i) <==> Reaches(t, q, i)
  {
    match t
    case Leaf(_) =>
    case Test(threshold, low, high) =>
      var n := LeafCount(low);
      FillKeepsCount(low, blocks[..n]);
      if i < n {
        FillKeepsReaches(low, blocks[..n], q, i);
      } else if high.Some? {
        FillKeepsReaches(high.value, blocks[n..], q, i - n);
      }
  }

  const IDLE := Block([], [])

  /** The audits of `t` and `t'` give the same ids and resolve all values alike. */
  ghost predicate SameTests(t: Tree, t': Tree) {
    && LeafCount(t') == LeafCount(t) && LeafIds(t') == LeafIds(t)
    && (forall q :: Target(t', q) == Target(t, q))
    && (forall q, i: nat :: Reaches(t', q, i) <==> Reaches(t, q, i))
  }

  /** The records differ in their blocks only. */
  ghost predicate SameRecords(r: Recorder, r': Recorder) {
    && r'.counter == r.counter && r'.states.order == r.states.order
    && (forall id :: id in r'.states.items <==> id in r.states.items)
    && (forall id :: id in r.states.items ==>
          r'.states.items[id].range == r.states.items[id].range && r'.states.items[id].id == r.states.items[id].id)
  }

  lemma {:induction false} RecordAllSame(r: Recorder, r': Recorder, ranges: seq<Range>, xs: seq<Block>, ys: seq<Block>)
    requires |ranges| == |xs| == |ys| && SameRecords(r, r')
    ensures SameRecords(RecordAll(r, ranges, xs), RecordAll(r', ranges, ys))
    decreases |ranges|
  {
    if ranges != [] {
      RecordAllSame(RecordLeaf(r, ranges[0], xs[0]), RecordLeaf(r', ranges[0], ys[0]), ranges[1..], xs[1..], ys[1..]);
    }
  }

  lemma {:induction false} FindInSame(r: Recorder, r': Recorder, order: seq<int>, q: int)
    requires SameRecords(r, r')
    ensures var s, s' := FindIn(r.states, order, q), FindIn(r'.states, order, q);
      (s.Some? <==> s'.Some?) && (s.Some? ==> s'.value.id == s.value.id)
    decreases |order|
  {
    if order != [] {
      var head := order[0];
      assert head in r'.states.items <==> head in r.states.items;
      FindInSame(r, r', order[1..], q);
    }
  }

  lemma FillKeepsTarget(t: Tree, blocks: seq<Block>, q: int)
    requires |blocks| == LeafCount(t)
    ensures Target(Fill(t, blocks), q) == Target(t, q)
  {
    var t' := Fill(t, blocks);
    TraverseRecordsAll(t, EVERYTHING, NO_STATES);
    TraverseRecordsAll(t', EVERYTHING, NO_STATES);
    FillKeepsRanges(t, blocks, EVERYTHING);
    FillKeepsShape(t, blocks);
    hide Ranges, Blocks, Fill;
    RecordAllSame(NO_STATES, NO_STATES, Ranges(t, EVERYTHING), Blocks(t), Blocks(t'));
    hide RecordAll, FindIn;
    FindInSame(Traverse(t, EVERYTHING, NO_STATES), Traverse(t', EVERYTHING, NO_STATES), StatesOf(t).order, q);
  }

  lemma FillKeepsTests(t: Tree, blocks: seq<Block>)
    requires |blocks| == LeafCount(t)
    ensures SameTests(t, Fill(t, blocks)) && Blocks(Fill(t, blocks)) == blocks
  {
    FillKeepsShape(t, blocks);
    FillKeepsRanges(t, blocks, EVERYTHING);
    hide Ranges, Fill, Target, LeafCount;
    forall q ensures Target(Fill(t, blocks), q) == Target(t, q) { FillKeepsTarget(t, blocks, q); }
    forall q, i: nat ensures Reaches(Fill(t, blocks), q, i) <==> Reaches(t, q, i) { FillKeepsReaches(t, blocks, q, i); }
  }

  /** Whether the leaves are resolved depends on the tests alone. */
  lemma SameTestsResolve(t: Tree, t': Tree)
    requires SameTests(t, t') && ResolvesLeaves(t)
    ensures ResolvesLeaves(t')
  {
    assert forall i :: Kept(t', i) <==> Kept(t, i);
    hide LastOf, LeafIds, Target, LeafCount, Reaches;
    if exists r: nat :: Reaches(t', ROOT_ENTRY_STATE, r) {
      var r: nat :| Reaches(t', ROOT_ENTRY_STATE, r);
      assert Reaches(t, ROOT_ENTRY_STATE, r);
      forall q: int, j: nat | Reaches(t', q, j) ensures AimsRight(t', q, j) {
        assert Reaches(t, q, j) && AimsRight(t, q, j);
        forall i | Visible(t', i) ensures Visible(t, i) {
          var q2 :| Reaches(t', q2, i);
          assert Reaches(t, q2, i);
        }
      }
    }
  }

  /** Every block is idle but block `r`, which jumps to `q`, and block `u`, which jumps to `p`. */
  function TwoJumps(n: nat, r: nat, q: int, u: nat, p: int): (blocks: seq<Block>)
    ensures |blocks| == n
  {
    seq(n, i requires 0 <= i < n =>
      Block((if i == r then [Unconditional(q)] else []) + (if i == u then [Unconditional(p)] else []), []))
  }

  predicate IdleOrJump(block: Block, q: int) {
    block.closures == [] && forall x :: x in block.transitions ==> x == Unconditional(q)
  }

  /** If all recorded blocks are idle or jump to `q`, a state that neither `q` nor the root entry resolves to is condemned. */
  lemma UntargetedIsCondemned(states: States, q: int, id: int)
    requires id in states.items
    requires forall a :: a in states.items ==> IdleOrJump(states.items[a].block, q)
    requires TargetId(states, ROOT_ENTRY_STATE) != Some(id) && TargetId(states, q) != Some(id)
    requires forall p :: p in {q, ROOT_ENTRY_STATE} && TargetId(states, p).Some? ==> TargetId(states, p).value in states.items
    ensures Judged(states, id, ProvenUnreachable)
  {
    hide TargetId;
    var closed := states.items.Keys - {id};
    forall a, b | MayStep(states, a, b) ensures b in closed {
      assert IdleOrJump(states.items[a].block, q);
      assert TargetId(states, q) == Some(b);
      assert q in {q, ROOT_ENTRY_STATE};
    }
    assert ROOT_ENTRY_STATE in {q, ROOT_ENTRY_STATE};
    forall a | a in states.items ensures !IsDynamic(states.items[a].block) {
      assert IdleOrJump(states.items[a].block, q);
    }
    hide MayStep;
    ClosedUnderMay(states, TargetId(states, ROOT_ENTRY_STATE), closed);
    hide MaybeReached, IdleOrJump, IsDynamic;
  }

  lemma TargetIsRecorded(t: Tree, q: int)
    ensures TargetId(StatesOf(t), q).Some? ==> TargetId(StatesOf(t), q).value in StatesOf(t).items
  {
    TraverseFilesById(t, EVERYTHING, NO_STATES);
    FindInIsFiled(StatesOf(t), StatesOf(t).order, q);
  }

  /** If block `r` jumps to `q` and an overwritten block `u` to `p`, a leaf that the audit does not aim at is condemned. */
  lemma RecordedJump(t: Tree, r: nat, q: int, u: nat, p: int, a: int)
    requires Blocks(t) == TwoJumps(LeafCount(t), r, q, u, p) && a in StatesOf(t).items
    requires u < LeafCount(t) && Kept(t, u) ==> p == q
    ensures IdleOrJump(StatesOf(t).items[a].block, q)
  {
    RecordedIsKept(t, a);
    hide LastOf, Ranges, Ids, LeafIds, Traverse;
    var j: nat :| Kept(t, j) && LeafIds(t)[j] == a && StatesOf(t).items[a].block == Blocks(t)[j];
    hide StatesOf, Blocks;
  }

  lemma UnaimedIsCondemned(t: Tree, r: nat, q: int, u: nat, p: int, i: nat)
    requires Blocks(t) == TwoJumps(LeafCount(t), r, q, u, p) && Kept(t, i) && !Aims(t, q, i)
    requires u < LeafCount(t) && Kept(t, u) ==> p == q
    ensures Condemned(t, i)
  {
    var id := LeafIds(t)[i];
    KeptIsRecorded(t, i);
    hide LastOf, Ranges, Ids, LeafIds, Traverse, StatesOf, TwoJumps, Blocks, IdleOrJump;
    forall a | a in StatesOf(t).items ensures IdleOrJump(StatesOf(t).items[a].block, q) {
      RecordedJump(t, r, q, u, p, a);
    }
    TargetIsRecorded(t, ROOT_ENTRY_STATE);
    TargetIsRecorded(t, q);
    hide TargetId;
    UntargetedIsCondemned(StatesOf(t), q, id);
  }

  /** What it means for the tests of `t`: whatever the blocks, the verdicts hold. */
  ghost predicate VerdictsHoldForAllBlocks(t: Tree) {
    forall blocks :: |blocks| == LeafCount(t) ==> VerdictsHold(Fill(t, blocks))
  }

  lemma RunOn(t: Tree, before: seq<Arrival>, a: Arrival, last: Arrival)
    requires IsRun(t, before) && before != [] && a == before[|before| - 1]
    requires a.leaf < LeafCount(t) && Offers(Blocks(t)[a.leaf], a.q, last.q) && Reaches(t, last.q, last.leaf)
    ensures IsRun(t, before + [last])
  {
    var run := before + [last];
    ReachesALeaf(t, last.q, last.leaf);
    assert run[..|run| - 1] == before && run[|run| - 1] == last && a in before;
    hide Reaches, LeafCount, Offers;
  }

  lemma FirstArrival(t: Tree, a: Arrival)
    requires a.leaf < LeafCount(t) && Reaches(t, a.q, a.leaf) && a.q == ROOT_ENTRY_STATE
    ensures IsRun(t, [a])
  {
    assert [a][..0] == [];
    hide Reaches, LeafCount;
  }

  lemma JumpsOffer(n: nat, r: nat, q: int, u: nat, p: int, q0: int)
    requires r < n && u < n
    ensures Offers(TwoJumps(n, r, q, u, p)[r], q0, q) && Offers(TwoJumps(n, r, q, u, p)[u], q0, p)
  {
    assert Unconditional(q) in TwoJumps(n, r, q, u, p)[r].transitions;
    assert Unconditional(p) in TwoJumps(n, r, q, u, p)[u].transitions;
  }

  lemma JumpRun(t: Tree, r: nat, q: int, u: nat, p: int, i: nat)
    requires Blocks(t) == TwoJumps(LeafCount(t), r, q, u, p)
    requires Reaches(t, ROOT_ENTRY_STATE, r) && Reaches(t, q, u) && Reaches(t, p, i)
    ensures IsRun(t, [Arrival(ROOT_ENTRY_STATE, r), Arrival(q, u), Arrival(p, i)])
  {
    hide Reaches, LeafCount, TwoJumps, IsRun, Offers, Blocks;
    ReachesALeaf(t, ROOT_ENTRY_STATE, r);
    ReachesALeaf(t, q, u);
    var a, b, c := Arrival(ROOT_ENTRY_STATE, r), Arrival(q, u), Arrival(p, i);
    JumpsOffer(LeafCount(t), r, q, u, p, a.q);
    JumpsOffer(LeafCount(t), r, q, u, p, b.q);
    FirstArrival(t, a);
    RunOn(t, [a], a, b);
    assert [a] + [b] == [a, b];
    RunOn(t, [a, b], b, c);
    assert [a, b] + [c] == [a, b, c];
  }

  lemma UnaimedIsWrong(t: Tree, r: nat, q: int, u: nat, p: int, i: nat)
    requires Blocks(t) == TwoJumps(LeafCount(t), r, q, u, p)
    requires Reaches(t, ROOT_ENTRY_STATE, r) && Reaches(t, q, u) && Reaches(t, p, i) && Kept(t, i) && !Aims(t, q, i)
    requires Kept(t, u) ==> p == q
    ensures !VerdictsHold(t)
  {
    hide Blocks, Reaches, LeafCount, TwoJumps, Aims;
    UnaimedIsCondemned(t, r, q, u, p, i);
    JumpRun(t, r, q, u, p, i);
    var run := [Arrival(ROOT_ENTRY_STATE, r), Arrival(q, u), Arrival(p, i)];
    assert run[2] in run;
    hide IsRun, Condemned;
  }

  /** The root entry leads to `r`, block `r` jumps to `q`, which leads to `u`, and block `u` jumps to `p`, which leads to
      a leaf that the audit does not aim at: the verdict is wrong. */
  lemma UnaimedFails(t: Tree, r: nat, q: int, u: nat, p: int, i: nat)
    requires Reaches(t, ROOT_ENTRY_STATE, r) && Reaches(t, q, u) && Reaches(t, p, i) && Kept(t, i) && !Aims(t, q, i)
    requires Kept(t, u) ==> p == q
    ensures !VerdictsHold(Fill(t, TwoJumps(LeafCount(t), r, q, u, p)))
  {
    var blocks := TwoJumps(LeafCount(t), r, q, u, p);
    var t' := Fill(t, blocks);
    FillKeepsTests(t, blocks);
    hide Fill, LeafCount, LeafIds, LastOf, Target, TwoJumps, VerdictsHold, Reaches;
    UnaimedIsWrong(t', r, q, u, p, i);
  }

  /** The converse: if the verdicts hold for all blocks, the audit resolves the leaves. */
  lemma HoldingVerdictsResolve(t: Tree)
    requires VerdictsHoldForAllBlocks(t)
    ensures ResolvesLeaves(t)
  {
    if r: nat :| Reaches(t, ROOT_ENTRY_STATE, r) {
      hide VerdictsHold, LeafIds, Target, Reaches, Kept, LeafCount;
      forall q: int, j: nat | Reaches(t, q, j) ensures AimsRight(t, q, j) {
        ReachesALeaf(t, q, j);
        if Kept(t, j) {
          if !Aims(t, q, j) { UnaimedFails(t, r, q, j, q, j); assert false; }
        } else {
          forall i | Visible(t, i) ensures Aims(t, q, i) {
            var p :| Reaches(t, p, i);
            if !Aims(t, q, i) { UnaimedFails(t, r, q, j, p, i); assert false; }
          }
        }
      }
    }
  }

  /** For all tests, also those whose leaves overwrite one another: the verdict "proven unreachable" holds of every run,
      whatever the blocks, exactly when every value that leads to a recorded leaf is resolved to it, unless the root
      entry is, and no value leads to an overwritten leaf without the same for all recorded leaves. */
  lemma VerdictsHoldIff(t: Tree)
    ensures VerdictsHoldForAllBlocks(t) <==> ResolvesLeaves(t)
  {
    if ResolvesLeaves(t) {
      hide ResolvesLeaves, VerdictsHold, SameTests;
      forall blocks: seq<Block> | |blocks| == LeafCount(t) ensures VerdictsHold(Fill(t, blocks)) {
        FillKeepsTests(t, blocks);
        SameTestsResolve(t, Fill(t, blocks));
        ResolvedVerdictsHold(Fill(t, blocks));
      }
    }
    if VerdictsHoldForAllBlocks(t) {
      HoldingVerdictsResolve(t);
    }
  }

  /** The inner threshold 10 is above the outer threshold 0. */
  const CROSSED := Test(Some(100), Test(Some(0), Test(Some(10), Leaf(IDLE), Some(Leaf(IDLE))), Some(Leaf(IDLE))), Some(Leaf(IDLE)))

  lemma CrossedLeaves()
    ensures Ranges(CROSSED, EVERYTHING) == [Range(NegInf, Fin(10)), Range(Fin(10), Fin(0)), Range(Fin(0), Fin(100)), Range(Fin(100), PosInf)]
    ensures LeafIds(CROSSED) == [9, 5, 50, 100] && LeafCount(CROSSED) == 4
    ensures Reaches(CROSSED, ROOT_ENTRY_STATE, 3) && Reaches(CROSSED, 5, 2)
  {}

  lemma CrossedTargets()
    ensures NoDup(LeafIds(CROSSED)) && Target(CROSSED, 5) == Some(9) && Target(CROSSED, ROOT_ENTRY_STATE) == Some(100)
  {
    CrossedLeaves();
    var ranges := Ranges(CROSSED, EVERYTHING);
    hide Ranges, LeafIds, LeafCount, Reaches, StatesOf;
    assert ranges[0].Has(5) && !ranges[0].Has(ROOT_ENTRY_STATE) && !ranges[1].Has(ROOT_ENTRY_STATE);
    assert !ranges[2].Has(ROOT_ENTRY_STATE) && ranges[3].Has(ROOT_ENTRY_STATE);
    TargetIsFirst(CROSSED, 5);
    TargetIsFirst(CROSSED, ROOT_ENTRY_STATE);
    hide First, FindBlockForState;
  }

  /** Without strict nesting the verdict can be wrong: the value 5 leads to the third leaf, but is resolved to
      the first, whose recorded interval ends at 10. */
  lemma VerdictCanBeWrong()
    ensures exists t: Tree :: LeafIds(t) == [9, 5, 50, 100] && !VerdictsHold(t)
  {
    CrossedLeaves();
    CrossedTargets();
    hide Ranges, LeafIds, VerdictsHold, Reaches, LeafCount, Target;
    DistinctAreKept(CROSSED, 2);
    hide Kept;
    WrongFilling(CROSSED, 3, 5, 2, 5, 2);
  }

  lemma WrongFilling(t: Tree, r: nat, q: int, u: nat, p: int, i: nat)
    requires Reaches(t, ROOT_ENTRY_STATE, r) && Reaches(t, q, u) && Reaches(t, p, i) && Kept(t, i) && !Aims(t, q, i)
    requires Kept(t, u) ==> p == q
    ensures exists t': Tree :: LeafIds(t') == LeafIds(t) && !VerdictsHold(t')
  {
    UnaimedFails(t, r, q, u, p, i);
    FillKeepsTests(t, TwoJumps(LeafCount(t), r, q, u, p));
    assert LeafIds(Fill(t, TwoJumps(LeafCount(t), r, q, u, p))) == LeafIds(t);
    hide VerdictsHold, LeafIds;
  }

  /** A test that is not folded gives both of its leaves the interval below 10, and so the id 9. */
  const UNFOLDED := Test(None, Leaf(IDLE), Some(Leaf(IDLE)))
  const OVERWRITING := Test(Some(100), Test(Some(10), UNFOLDED, Some(Leaf(IDLE))), Some(Leaf(IDLE)))
  const OVERWRITTEN := OrderedMap([9, 55, 100],
    map[9 := State(9, Range(NegInf, Fin(10)), IDLE), 55 := State(55, Range(Fin(10), Fin(100)), IDLE), 100 := State(100, Range(Fin(100), PosInf), IDLE)])

  lemma OverwritingLeaves()
    ensures LeafIds(OVERWRITING) == [9, 9, 55, 100]
    ensures Reaches(OVERWRITING, ROOT_ENTRY_STATE, 3) && Reaches(OVERWRITING, 5, 0) && Reaches(OVERWRITING, 50, 2)
    ensures !Kept(OVERWRITING, 0) && Kept(OVERWRITING, 2)
  {
    var low, mid, high := Range(NegInf, Fin(10)), Range(Fin(10), Fin(100)), Range(Fin(100), PosInf);
    assert Ranges(UNFOLDED, low) == [low, low];
    assert Ranges(OVERWRITING, EVERYTHING) == [low, low, mid, high];
    hide Ranges;
    assert LeafIds(OVERWRITING) == [9, 9, 55, 100];
    assert LeafIds(OVERWRITING)[1] == 9;
    hide LeafIds;
    assert LeafCount(UNFOLDED) == 2;
    assert LeafCount(OVERWRITING) == 4;
  }

  lemma OverwritingStates()
    ensures StatesOf(OVERWRITING) == OVERWRITTEN
  {
    var low, mid := Range(NegInf, Fin(10)), Range(Fin(10), Fin(100));
    var two := Recorder(2, OrderedMap([9], map[9 := State(9, low, IDLE)]));
    assert Traverse(UNFOLDED, low, NO_STATES) == two;
    var three := Recorder(3, OrderedMap([9, 55], map[9 := State(9, low, IDLE), 55 := State(55, mid, IDLE)]));
    assert RecordLeaf(two, mid, IDLE) == three;
    assert Traverse(OVERWRITING.low, Range(NegInf, Fin(100)), NO_STATES) == three;
  }

  lemma OverwritingTargets()
    ensures Target(OVERWRITING, 5) == Some(9) && Target(OVERWRITING, ROOT_ENTRY_STATE) == Some(100)
  {
    OverwritingStates();
    hide StatesOf;
    FindInFirst(OVERWRITTEN, OVERWRITTEN.order, 5, 0);
    FindInFirst(OVERWRITTEN, OVERWRITTEN.order, ROOT_ENTRY_STATE, 2);
    hide FindIn;
  }

  /** A leaf that overwrites another misleads the audit: the value 5 may lead to the first leaf, whose jump to 50 is not
      seen, and the third leaf is taken for unreachable. */
  lemma OverwrittenLeafMisleads()
    ensures exists t: Tree :: LeafIds(t) == [9, 9, 55, 100] && !VerdictsHold(t)
  {
    OverwritingLeaves();
    OverwritingTargets();
    hide LeafIds, Target, Kept, VerdictsHold, Reaches;
    ReachesALeaf(OVERWRITING, 50, 2);
    WrongFilling(OVERWRITING, 3, 5, 0, 50, 2);
  }
}

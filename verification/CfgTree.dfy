/** The dispatcher tree of audit/cfg-auditor.js: nested `if Q < t` tests whose leaves are recorded as
    states, each with the interval of dispatcher values the auditor believes to reach it. */
module CfgTree {
  import opened Collections

  /** An assignment to the dispatcher variable, as classified by the auditor. */
  datatype Transition =
    | Unconditional(target: int)
    | Conditional(target: int)
    | RuntimeDependent
    | Unresolved
    | Terminal

  datatype Block = Block(transitions: seq<Transition>, closures: seq<int>)

  /** A test `Q < threshold`; the threshold is `None` when it does not fold to a number. */
  datatype Tree =
    | Leaf(block: Block)
    | Test(threshold: Option<int>, low: Tree, high: Option<Tree>)

  /** Interval ends; a lower end is never `PosInf`, an upper end never `NegInf`. */
  datatype Bound = NegInf | Fin(n: int) | PosInf

  predicate Above(q: int, lo: Bound) {
    lo.NegInf? || (lo.Fin? && lo.n <= q)
  }

  predicate Below(q: int, hi: Bound) {
    hi.PosInf? || (hi.Fin? && q < hi.n)
  }

  predicate Less(a: Bound, b: Bound) {
    match (a, b)
    case (NegInf, NegInf) => false
    case (NegInf, _) => true
    case (Fin(m), Fin(n)) => m < n
    case (Fin(_), PosInf) => true
    case _ => false
  }

  datatype Range = Range(lo: Bound, hi: Bound) {
    predicate Has(q: int) {
      Above(q, lo) && Below(q, hi)
    }

    predicate IsEmpty() {
      !Less(lo, hi)
    }
  }

  datatype State = State(id: int, range: Range, block: Block)

  function Either(x: Option<int>, d: Bound): Bound {
    if x.Some? then Fin(x.value) else d
  }

  // ---------------------------------------------------------------- recording the leaves

  /** The auditor's map of states and its counter. */
  datatype Recorder = Recorder(counter: nat, states: OrderedMap<int, State>)

  function StateId(range: Range, counter: int): int {
    if range.lo.Fin? && range.hi.Fin? then (range.lo.n + range.hi.n) / 2
    else if range.lo.Fin? then range.lo.n
    else if range.hi.Fin? then range.hi.n - 1
    else counter
  }

  /** The id rule: the middle of a finite interval, rounded down; else its finite end, as the first or last value in it;
      else the counter. */
  lemma StateIdIs(range: Range, counter: int)
    ensures var id := StateId(range, counter);
      match (range.lo, range.hi)
      case (Fin(lo), Fin(hi)) => 2 * id <= lo + hi <= 2 * id + 1
      case (Fin(lo), _) => id == lo
      case (_, Fin(hi)) => id + 1 == hi
      case _ => id == counter
  {}

  function RecordLeaf(r: Recorder, range: Range, block: Block): Recorder {
    var id := StateId(range, r.counter + 1);
    Recorder(r.counter + 1, r.states.Set(id, State(id, range, block)))
  }

  function Traverse(t: Tree, range: Range, r: Recorder): Recorder {
    match t
    case Leaf(block) => RecordLeaf(r, range, block)
    case Test(threshold, low, high) =>
      var afterLow := Traverse(low, Range(range.lo, Either(threshold, range.hi)), r);
      if high.None? then afterLow
      else Traverse(high.value, Range(Either(threshold, range.lo), range.hi), afterLow)
  }

  const EVERYTHING := Range(NegInf, PosInf)
  const NO_STATES := Recorder(0, OrderedMap([], map[]))

  function StatesOf(t: Tree): OrderedMap<int, State> {
    Traverse(t, EVERYTHING, NO_STATES).states
  }

  /** The first recorded state, in recording order, whose interval has `q`. */
  function FindIn(states: OrderedMap<int, State>, order: seq<int>, q: int): Option<State> {
    if order == [] then None
    else if order[0] in states.items && states.items[order[0]].range.Has(q) then Some(states.items[order[0]])
    else FindIn(states, order[1..], q)
  }

  function FindBlockForState(states: OrderedMap<int, State>, q: int): Option<State> {
    FindIn(states, states.order, q)
  }

  class CFGAuditor {
    var stateCounter: nat
    var states: OrderedMap<int, State>

    ghost function Value(): Recorder
      reads this
    {
      Recorder(stateCounter, states)
    }

    constructor ()
      ensures Value() == NO_STATES
    {
      stateCounter, states := 0, OrderedMap([], map[]);
    }

    method RecordLeafState(range: Range, block: Block)
      modifies this
      ensures Value() == RecordLeaf(old(Value()), range, block)
    {
      stateCounter := stateCounter + 1;
      var stateId;
      if range.lo.Fin? && range.hi.Fin? {
        stateId := (range.lo.n + range.hi.n) / 2;
      } else if range.lo.Fin? {
        stateId := range.lo.n;
      } else if range.hi.Fin? {
        stateId := range.hi.n - 1;
      } else {
        stateId := stateCounter;
      }
      states := states.Set(stateId, State(stateId, range, block));
    }

    method TraverseTree(t: Tree, range: Range)
      modifies this
      ensures Value() == Traverse(t, range, old(Value()))
      decreases t
    {
      match t
      case Leaf(block) =>
        RecordLeafState(range, block);
      case Test(threshold, low, high) =>
        TraverseTree(low, Range(range.lo, Either(threshold, range.hi)));
        if high.Some? {
          TraverseTree(high.value, Range(Either(threshold, range.lo), range.hi));
        }
    }

    method FindBlock(q: int) returns (s: Option<State>)
      ensures s == FindBlockForState(states, q)
    {
      var i := 0;
      while i < |states.order|
        invariant 0 <= i <= |states.order|
        invariant FindBlockForState(states, q) == FindIn(states, states.order[i..], q)
      {
        var id := states.order[i];
        assert states.order[i..][0] == id && states.order[i..][1..] == states.order[i + 1..];
        if id in states.items && states.items[id].range.Has(q) {
          return Some(states.items[id]);
        }
        i := i + 1;
      }
      return None;
    }
  }

  // ---------------------------------------------------------------- what the tests really do

  function LeafCount(t: Tree): nat {
    match t
    case Leaf(_) => 1
    case Test(_, low, high) => LeafCount(low) + if high.None? then 0 else LeafCount(high.value)
  }

  /** The leaves in recording order. */
  function Blocks(t: Tree): (r: seq<Block>)
    ensures |r| == LeafCount(t)
  {
    match t
    case Leaf(block) => [block]
    case Test(_, low, high) => Blocks(low) + if high.None? then [] else Blocks(high.value)
  }

  /** The recorded intervals in recording order. */
  function Ranges(t: Tree, range: Range): (r: seq<Range>)
    ensures |r| == LeafCount(t)
  {
    match t
    case Leaf(_) => [range]
    case Test(threshold, low, high) =>
      Ranges(low, Range(range.lo, Either(threshold, range.hi)))
        + if high.None? then [] else Ranges(high.value, Range(Either(threshold, range.lo), range.hi))
  }

  /** Evaluating the tests at `q` can lead to leaf `i`; a test with unknown threshold may go either way. */
  predicate Reaches(t: Tree, q: int, i: nat) {
    match t
    case Leaf(_) => i == 0
    case Test(threshold, low, high) =>
      var n := LeafCount(low);
      if i < n then (threshold.Some? ==> q < threshold.value) && Reaches(low, q, i)
      else (threshold.Some? ==> q >= threshold.value) && high.Some? && Reaches(high.value, q, i - n)
  }

  /** Whatever the thresholds, the recorded interval of a leaf has every value that can reach it. */
  lemma {:induction false} RangesOverApproximate(t: Tree, range: Range, q: int, i: nat)
    requires range.Has(q) && i < LeafCount(t) && Reaches(t, q, i)
    ensures Ranges(t, range)[i].Has(q)
  {
    match t
    case Leaf(_) =>
    case Test(threshold, low, high) =>
      var n := LeafCount(low);
      if i < n {
        RangesOverApproximate(low, Range(range.lo, Either(threshold, range.hi)), q, i);
      } else {
        RangesOverApproximate(high.value, Range(Either(threshold, range.lo), range.hi), q, i - n);
      }
  }

  // ---------------------------------------------------------------- proper trees

  /** Every threshold is a known number strictly inside the interval its test inherits. */
  predicate IsProper(t: Tree, range: Range) {
    match t
    case Leaf(_) => true
    case Test(threshold, low, high) =>
      && threshold.Some?
      && Less(range.lo, Fin(threshold.value)) && Less(Fin(threshold.value), range.hi)
      && IsProper(low, Range(range.lo, Fin(threshold.value)))
      && (high.Some? ==> IsProper(high.value, Range(Fin(threshold.value), range.hi)))
  }

  /** All thresholds are known and all tests have an else branch. */
  predicate IsComplete(t: Tree) {
    match t
    case Leaf(_) => true
    case Test(threshold, low, high) => threshold.Some? && high.Some? && IsComplete(low) && IsComplete(high.value)
  }

  ghost predicate NoneEmpty(ranges: seq<Range>) {
    forall i :: 0 <= i < |ranges| ==> !ranges[i].IsEmpty()
  }

  lemma NoneEmptyParts(a: seq<Range>, b: seq<Range>)
    ensures NoneEmpty(a + b) <==> NoneEmpty(a) && NoneEmpty(b)
  {
    if NoneEmpty(a + b) {
      forall i | 0 <= i < |a| ensures !a[i].IsEmpty() { assert (a + b)[i] == a[i]; }
      forall i | 0 <= i < |b| ensures !b[i].IsEmpty() { assert (a + b)[|a| + i] == b[i]; }
    }
  }

  lemma {:induction false} NoneEmptyMeansRoom(t: Tree, range: Range)
    requires IsComplete(t) && NoneEmpty(Ranges(t, range))
    ensures !range.IsEmpty()
  {
    match t
    case Leaf(_) => assert Ranges(t, range)[0] == range;
    case Test(threshold, low, high) =>
      var left, right := Range(range.lo, Fin(threshold.value)), Range(Fin(threshold.value), range.hi);
      NoneEmptyParts(Ranges(low, left), Ranges(high.value, right));
      NoneEmptyMeansRoom(low, left);
      NoneEmptyMeansRoom(high.value, right);
  }

  /** A condition to check on the records alone: no recorded interval is empty exactly when every threshold
      lies strictly inside the interval its test inherits. */
  lemma {:induction false} NoneEmptyIffProper(t: Tree, range: Range)
    requires IsComplete(t) && !range.IsEmpty()
    ensures NoneEmpty(Ranges(t, range)) <==> IsProper(t, range)
  {
    match t
    case Leaf(_) =>
    case Test(threshold, low, high) =>
      var left, right := Range(range.lo, Fin(threshold.value)), Range(Fin(threshold.value), range.hi);
      NoneEmptyParts(Ranges(low, left), Ranges(high.value, right));
      if NoneEmpty(Ranges(t, range)) {
        NoneEmptyMeansRoom(low, left);
        NoneEmptyMeansRoom(high.value, right);
      }
      if !left.IsEmpty() && !right.IsEmpty() {
        NoneEmptyIffProper(low, left);
        NoneEmptyIffProper(high.value, right);
      }
  }

  /** In a proper tree a leaf's interval is exactly the set of values that reach it. */
  lemma {:induction false} RangesAreExact(t: Tree, range: Range, q: int, i: nat)
    requires IsProper(t, range) && range.Has(q) && i < LeafCount(t)
    ensures Ranges(t, range)[i].Has(q) <==> Reaches(t, q, i)
  {
    match t
    case Leaf(_) =>
    case Test(threshold, low, high) =>
      var n := LeafCount(low);
      var left, right := Range(range.lo, Fin(threshold.value)), Range(Fin(threshold.value), range.hi);
      if i < n {
        assert Ranges(t, range)[i] == Ranges(low, left)[i];
        if left.Has(q) {
          RangesAreExact(low, left, q, i);
        } else if Ranges(low, left)[i].Has(q) {
          RangesInside(low, left, q, i);
        }
      } else {
        assert Ranges(t, range)[i] == Ranges(high.value, right)[i - n];
        if right.Has(q) {
          RangesAreExact(high.value, right, q, i - n);
        } else if Ranges(high.value, right)[i - n].Has(q) {
          RangesInside(high.value, right, q, i - n);
        }
      }
  }

  lemma {:induction false} RangesInside(t: Tree, range: Range, q: int, i: nat)
    requires IsProper(t, range) && i < LeafCount(t) && Ranges(t, range)[i].Has(q)
    ensures range.Has(q)
  {
    match t
    case Leaf(_) =>
    case Test(threshold, low, high) =>
      var n := LeafCount(low);
      if i < n {
        RangesInside(low, Range(range.lo, Fin(threshold.value)), q, i);
      } else {
        RangesInside(high.value, Range(Fin(threshold.value), range.hi), q, i - n);
      }
  }

  lemma {:induction false} ReachesOne(t: Tree, range: Range, q: int, i: nat, j: nat)
    requires IsProper(t, range) && Reaches(t, q, i) && Reaches(t, q, j)
    ensures i == j
  {
    match t
    case Leaf(_) =>
    case Test(threshold, low, high) =>
      var n := LeafCount(low);
      if i < n && j < n {
        ReachesOne(low, Range(range.lo, Fin(threshold.value)), q, i, j);
      } else if i >= n && j >= n {
        ReachesOne(high.value, Range(Fin(threshold.value), range.hi), q, i - n, j - n);
      }
  }

  lemma {:induction false} ReachesALeaf(t: Tree, q: int, i: nat)
    requires Reaches(t, q, i)
    ensures i < LeafCount(t)
  {
    match t
    case Leaf(_) =>
    case Test(_, low, high) =>
      if i >= LeafCount(low) { ReachesALeaf(high.value, q, i - LeafCount(low)); }
  }

  lemma {:induction false} ProperRangesAreNotEmpty(t: Tree, range: Range, i: nat)
    requires IsProper(t, range) && !range.IsEmpty() && i < LeafCount(t)
    ensures !Ranges(t, range)[i].IsEmpty()
  {
    match t
    case Leaf(_) =>
    case Test(threshold, low, high) =>
      var n := LeafCount(low);
      if i < n {
        ProperRangesAreNotEmpty(low, Range(range.lo, Fin(threshold.value)), i);
      } else {
        ProperRangesAreNotEmpty(high.value, Range(Fin(threshold.value), range.hi), i - n);
      }
  }

  // ---------------------------------------------------------------- the recorded states of a proper tree

  /** Recording a list of leaves one after the other. */
  function RecordAll(r: Recorder, ranges: seq<Range>, blocks: seq<Block>): Recorder
    requires |ranges| == |blocks|
    decreases |ranges|
  {
    if ranges == [] then r else RecordAll(RecordLeaf(r, ranges[0], blocks[0]), ranges[1..], blocks[1..])
  }

  lemma {:induction false} RecordAllSplit(r: Recorder, a: seq<Range>, b: seq<Range>, x: seq<Block>, y: seq<Block>)
    requires |a| == |x| && |b| == |y|
    ensures RecordAll(r, a + b, x + y) == RecordAll(RecordAll(r, a, x), b, y)
    decreases |a|
  {
    if a == [] {
      assert a + b == b && x + y == y;
    } else {
      assert (a + b)[1..] == a[1..] + b && (x + y)[1..] == x[1..] + y;
      RecordAllSplit(RecordLeaf(r, a[0], x[0]), a[1..], b, x[1..], y);
    }
  }

  lemma {:induction false} TraverseRecordsAll(t: Tree, range: Range, r: Recorder)
    ensures Traverse(t, range, r) == RecordAll(r, Ranges(t, range), Blocks(t))
  {
    match t
    case Leaf(block) =>
      assert RecordAll(RecordLeaf(r, range, block), [], []) == RecordLeaf(r, range, block);
    case Test(threshold, low, high) =>
      var left, right := Range(range.lo, Either(threshold, range.hi)), Range(Either(threshold, range.lo), range.hi);
      TraverseRecordsAll(low, left, r);
      if high.None? {
        assert Ranges(t, range) == Ranges(low, left) && Blocks(t) == Blocks(low);
      } else {
        TraverseRecordsAll(high.value, right, Traverse(low, left, r));
        RecordAllSplit(r, Ranges(low, left), Ranges(high.value, right), Blocks(low), Blocks(high.value));
      }
  }

  /** The state id given to leaf `i`. */
  function IdAt(ranges: seq<Range>, i: nat): int
    requires i < |ranges|
  {
    StateId(ranges[i], i + 1)
  }

  function Ids(ranges: seq<Range>): (r: seq<int>)
    ensures |r| == |ranges|
  {
    seq(|ranges|, i requires 0 <= i < |ranges| => IdAt(ranges, i))
  }

  lemma IdInOwnRange(range: Range, counter: int)
    requires !range.IsEmpty()
    ensures range.Has(StateId(range, counter))
  {}

  /** The recorded states are the leaves, under their ids, in order. */
  ghost predicate Records(r: Recorder, ranges: seq<Range>, blocks: seq<Block>)
    requires |ranges| == |blocks|
  {
    && r.counter == |ranges|
    && r.states.order == Ids(ranges)
    && (forall id :: id in r.states.items <==> id in Ids(ranges))
    && (forall i :: 0 <= i < |ranges| ==> r.states.items[Ids(ranges)[i]] == State(Ids(ranges)[i], ranges[i], blocks[i]))
  }

  lemma RecordOneMore(r: Recorder, ranges: seq<Range>, blocks: seq<Block>, range: Range, block: Block)
    requires |ranges| == |blocks| && Records(r, ranges, blocks)
    requires StateId(range, |ranges| + 1) !in Ids(ranges)
    ensures Records(RecordLeaf(r, range, block), ranges + [range], blocks + [block])
  {
    assert Ids(ranges + [range]) == Ids(ranges) + [StateId(range, |ranges| + 1)];
  }

  lemma {:induction false} RecordAllRecords(r: Recorder, done: seq<Range>, ranges: seq<Range>, doneBlocks: seq<Block>, blocks: seq<Block>)
    requires |done| == |doneBlocks| && |ranges| == |blocks|
    requires Records(r, done, doneBlocks) && NoDup(Ids(done + ranges))
    ensures Records(RecordAll(r, ranges, blocks), done + ranges, doneBlocks + blocks)
    decreases |ranges|
  {
    if ranges == [] {
      assert done + ranges == done && doneBlocks + blocks == doneBlocks;
    } else {
      var id := StateId(ranges[0], |done| + 1);
      assert Ids(done + ranges)[|done|] == id;
      forall i | 0 <= i < |done| ensures Ids(done)[i] != id { assert Ids(done + ranges)[i] == Ids(done)[i]; }
      RecordOneMore(r, done, doneBlocks, ranges[0], blocks[0]);
      assert done + ranges == (done + [ranges[0]]) + ranges[1..];
      assert doneBlocks + blocks == (doneBlocks + [blocks[0]]) + blocks[1..];
      RecordAllRecords(RecordLeaf(r, ranges[0], blocks[0]), done + [ranges[0]], ranges[1..], doneBlocks + [blocks[0]], blocks[1..]);
    }
  }

  lemma ProperIdsDiffer(t: Tree)
    requires IsProper(t, EVERYTHING)
    ensures NoDup(Ids(Ranges(t, EVERYTHING)))
    ensures forall i :: 0 <= i < LeafCount(t) ==> Ranges(t, EVERYTHING)[i].Has(Ids(Ranges(t, EVERYTHING))[i])
  {
    var ranges := Ranges(t, EVERYTHING);
    forall i | 0 <= i < LeafCount(t) ensures ranges[i].Has(Ids(ranges)[i]) {
      ProperRangesAreNotEmpty(t, EVERYTHING, i);
      IdInOwnRange(ranges[i], i + 1);
    }
    forall i, j | 0 <= i < j < LeafCount(t) ensures Ids(ranges)[i] != Ids(ranges)[j] {
      var q := Ids(ranges)[i];
      if q == Ids(ranges)[j] {
        RangesAreExact(t, EVERYTHING, q, i);
        RangesAreExact(t, EVERYTHING, q, j);
        ReachesOne(t, EVERYTHING, q, i, j);
      }
    }
  }

  /** When the ids differ no leaf overwrites another: the states are exactly the leaves, in order. */
  lemma {:induction false} LeavesAreRecorded(t: Tree)
    requires NoDup(Ids(Ranges(t, EVERYTHING)))
    ensures Records(Traverse(t, EVERYTHING, NO_STATES), Ranges(t, EVERYTHING), Blocks(t))
  {
    var ranges := Ranges(t, EVERYTHING);
    TraverseRecordsAll(t, EVERYTHING, NO_STATES);
    assert [] + ranges == ranges && [] + Blocks(t) == Blocks(t);
    assert Records(NO_STATES, [], []);
    RecordAllRecords(NO_STATES, [], ranges, [], Blocks(t));
  }

  /** In a proper tree no leaf overwrites another: the states are exactly the leaves, in order, each under an
      id from its own interval. */
  lemma {:induction false} ProperTreeIsRecorded(t: Tree)
    requires IsProper(t, EVERYTHING)
    ensures var ranges := Ranges(t, EVERYTHING);
      && Records(Traverse(t, EVERYTHING, NO_STATES), ranges, Blocks(t))
      && NoDup(Ids(ranges))
      && forall i :: 0 <= i < LeafCount(t) ==> ranges[i].Has(Ids(ranges)[i])
  {
    ProperIdsDiffer(t);
    LeavesAreRecorded(t);
  }

  lemma {:induction false} FindInFirst(states: OrderedMap<int, State>, order: seq<int>, q: int, i: nat)
    requires forall j :: 0 <= j < |order| ==> order[j] in states.items
    requires i < |order| && states.items[order[i]].range.Has(q)
    requires forall j :: 0 <= j < i ==> !states.items[order[j]].range.Has(q)
    ensures FindIn(states, order, q) == Some(states.items[order[i]])
  {
    var head := order[0];
    assert head in order;
    if i > 0 {
      FindInFirst(states, order[1..], q, i - 1);
    }
  }

  lemma {:induction false} FindInNone(states: OrderedMap<int, State>, order: seq<int>, q: int)
    requires forall id :: id in order ==> id in states.items && !states.items[id].range.Has(q)
    ensures FindIn(states, order, q) == None
  {
    if order != [] {
      var head := order[0];
      assert head in order;
      FindInNone(states, order[1..], q);
    }
  }

  /** In a proper tree `findBlockForState(q)` is the leaf that evaluating the tests at `q` reaches, and null
      exactly when the tests fall through a missing else branch. */
  lemma FindIsEvaluation(t: Tree, q: int, i: nat)
    requires IsProper(t, EVERYTHING) && i < LeafCount(t)
    ensures var ranges := Ranges(t, EVERYTHING); var id := Ids(ranges)[i];
      FindBlockForState(StatesOf(t), q) == Some(State(id, ranges[i], Blocks(t)[i])) <==> Reaches(t, q, i)
  {
    var ranges := Ranges(t, EVERYTHING);
    var states := StatesOf(t);
    ProperTreeIsRecorded(t);
    RangesAreExact(t, EVERYTHING, q, i);
    if Reaches(t, q, i) {
      forall j | 0 <= j < i ensures !states.items[states.order[j]].range.Has(q) {
        RangesAreExact(t, EVERYTHING, q, j);
        if ranges[j].Has(q) { ReachesOne(t, EVERYTHING, q, i, j); }
      }
      FindInFirst(states, states.order, q, i);
    } else {
      FoundHas(states, states.order, q);
    }
  }

  lemma {:induction false} FoundHas(states: OrderedMap<int, State>, order: seq<int>, q: int)
    ensures FindIn(states, order, q).Some? ==>
              FindIn(states, order, q).value.range.Has(q)
              && exists id :: id in order && id in states.items && states.items[id] == FindIn(states, order, q).value
  {
    if order != [] {
      var head := order[0];
      assert head in order;
      FoundHas(states, order[1..], q);
    }
  }

  lemma FindNothing(t: Tree, q: int)
    requires IsProper(t, EVERYTHING)
    ensures FindBlockForState(StatesOf(t), q) == None <==> forall i: nat :: i < LeafCount(t) ==> !Reaches(t, q, i)
  {
    var states := StatesOf(t);
    ProperTreeIsRecorded(t);
    if i: nat :| i < LeafCount(t) && Reaches(t, q, i) {
      FindIsEvaluation(t, q, i);
    } else {
      forall id | id in states.order ensures id in states.items && !states.items[id].range.Has(q) {
        var i: nat :| i < LeafCount(t) && states.order[i] == id;
        RangesAreExact(t, EVERYTHING, q, i);
      }
      FindInNone(states, states.order, q);
    }
  }
}

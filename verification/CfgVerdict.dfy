/** The incoming edges, verdicts and reports of audit/cfg-auditor.js. */
module CfgVerdict {
  import opened Collections
  import opened CfgTree
  import opened CfgReach

  // ---------------------------------------------------------------- incoming edges

  datatype Edge =
    | Jump(source: int, conditional: bool)
    | ClosureEntry(source: int)
    | RootEntry

  /** The edge, if any, that transition `t` of block `a` adds to the list of block `id`. */
  function JumpEdge(states: States, a: int, t: Transition, id: int): seq<Edge> {
    if (t.Unconditional? || t.Conditional?) && TargetId(states, t.target) == Some(id) then [Jump(a, t.Conditional?)] else []
  }

  function JumpEdges(states: States, a: int, ts: seq<Transition>, id: int): seq<Edge> {
    if ts == [] then []
    else JumpEdges(states, a, ts[..|ts| - 1], id) + JumpEdge(states, a, ts[|ts| - 1], id)
  }

  function ClosureEdge(states: States, a: int, q: int, id: int): seq<Edge> {
    if TargetId(states, q) == Some(id) then [ClosureEntry(a)] else []
  }

  function ClosureEdges(states: States, a: int, qs: seq<int>, id: int): seq<Edge> {
    if qs == [] then []
    else ClosureEdges(states, a, qs[..|qs| - 1], id) + ClosureEdge(states, a, qs[|qs| - 1], id)
  }

  function EdgesFrom(states: States, order: seq<int>, id: int): seq<Edge>
    requires forall a :: a in order ==> a in states.items
  {
    if order == [] then []
    else
      var a := order[|order| - 1];
      EdgesFrom(states, order[..|order| - 1], id)
      + JumpEdges(states, a, states.items[a].block.transitions, id)
      + ClosureEdges(states, a, states.items[a].block.closures, id)
  }

  type EdgeLists = map<int, seq<Edge>>

  /** The list of incoming edges the auditor builds for block `id`. */
  function IncomingEdges(states: States, root: Option<int>, id: int): seq<Edge>
    requires forall a :: a in states.order ==> a in states.items
  {
    EdgesFrom(states, states.order, id) + if root == Some(id) then [RootEntry] else []
  }

  lemma {:induction false} NoJumpEdges(states: States, a: int, ts: seq<Transition>, id: int)
    ensures JumpEdges(states, a, ts, id) == [] <==>
              forall t :: t in ts && (t.Unconditional? || t.Conditional?) ==> TargetId(states, t.target) != Some(id)
  {
    if ts != [] {
      var t0 := ts[|ts| - 1];
      NoJumpEdges(states, a, ts[..|ts| - 1], id);
      assert ts == ts[..|ts| - 1] + [t0];
      hide TargetId;
    }
  }

  lemma {:induction false} NoClosureEdges(states: States, a: int, qs: seq<int>, id: int)
    ensures ClosureEdges(states, a, qs, id) == [] <==> forall q :: q in qs ==> TargetId(states, q) != Some(id)
  {
    if qs != [] {
      NoClosureEdges(states, a, qs[..|qs| - 1], id);
      assert qs == qs[..|qs| - 1] + [qs[|qs| - 1]];
      hide TargetId;
    }
  }

  lemma NoEdgesOf(states: States, a: int, id: int)
    requires a in states.items
    ensures JumpEdges(states, a, states.items[a].block.transitions, id) == []
            && ClosureEdges(states, a, states.items[a].block.closures, id) == []
       <==> !MayStep(states, a, id)
  {
    var block := states.items[a].block;
    NoJumpEdges(states, a, block.transitions, id);
    NoClosureEdges(states, a, block.closures, id);
    hide TargetId, JumpEdges, ClosureEdges;
    if t :| t in block.transitions && (t.Unconditional? || t.Conditional?) && TargetId(states, t.target) == Some(id) {
      assert IsJump(block, t.target);
    }
  }

  lemma {:induction false} NoEdgesFrom(states: States, order: seq<int>, id: int)
    requires forall a :: a in order ==> a in states.items
    ensures EdgesFrom(states, order, id) == [] <==> forall a :: a in order ==> !MayStep(states, a, id)
  {
    if order != [] {
      var rest, a0 := order[..|order| - 1], order[|order| - 1];
      NoEdgesFrom(states, rest, id);
      NoEdgesOf(states, a0, id);
      assert order == rest + [a0];
      assert EdgesFrom(states, order, id) == [] <==>
          EdgesFrom(states, rest, id) == []
          && JumpEdges(states, a0, states.items[a0].block.transitions, id) == []
          && ClosureEdges(states, a0, states.items[a0].block.closures, id) == [];
      hide EdgesFrom, MayStep, JumpEdges, ClosureEdges;
    }
  }

  /** The list is empty exactly when the block is not the root's and no recorded block steps to it. */
  lemma NoIncomingEdges(states: States, root: Option<int>, id: int)
    requires FiledById(states)
    ensures IncomingEdges(states, root, id) == [] <==> root != Some(id) && forall a :: !MayStep(states, a, id)
  {
    NoEdgesFrom(states, states.order, id);
    if forall a :: a in states.order ==> !MayStep(states, a, id) {
      forall a ensures !MayStep(states, a, id) {
        if a !in states.items {} else { assert a in states.order; }
      }
    }
  }

  /** How many of the transitions are jumps of that kind to block `id`. */
  function JumpsTo(states: States, ts: seq<Transition>, id: int, conditional: bool): nat {
    if ts == [] then 0
    else
      JumpsTo(states, ts[1..], id, conditional)
      + match ts[0]
        case Unconditional(q) => if !conditional && TargetId(states, q) == Some(id) then 1 else 0
        case Conditional(q) => if conditional && TargetId(states, q) == Some(id) then 1 else 0
        case _ => 0
  }

  /** How many of the closures enter block `id`. */
  function EntriesTo(states: States, qs: seq<int>, id: int): nat {
    if qs == [] then 0 else EntriesTo(states, qs[1..], id) + if TargetId(states, qs[0]) == Some(id) then 1 else 0
  }

  lemma {:induction false} JumpsSplit(states: States, x: seq<Transition>, y: seq<Transition>, id: int, conditional: bool)
    ensures JumpsTo(states, x + y, id, conditional) == JumpsTo(states, x, id, conditional) + JumpsTo(states, y, id, conditional)
  {
    if x == [] {
      assert x + y == y;
    } else {
      assert (x + y)[1..] == x[1..] + y;
      JumpsSplit(states, x[1..], y, id, conditional);
    }
  }

  lemma {:induction false} EntriesSplit(states: States, x: seq<int>, y: seq<int>, id: int)
    ensures EntriesTo(states, x + y, id) == EntriesTo(states, x, id) + EntriesTo(states, y, id)
  {
    if x == [] {
      assert x + y == y;
    } else {
      assert (x + y)[1..] == x[1..] + y;
      EntriesSplit(states, x[1..], y, id);
    }
  }

  lemma {:induction false} JumpEdgesCount(states: States, a: int, ts: seq<Transition>, id: int)
    ensures forall c :: multiset(JumpEdges(states, a, ts, id))[Jump(a, c)] == JumpsTo(states, ts, id, c)
    ensures forall e :: e in JumpEdges(states, a, ts, id) ==> e.Jump? && e.source == a
    decreases |ts|
  {
    if ts != [] {
      var before, last := ts[..|ts| - 1], ts[|ts| - 1];
      JumpEdgesCount(states, a, before, id);
      assert ts == before + [last];
      JumpsSplit(states, before, [last], id, false);
      JumpsSplit(states, before, [last], id, true);
      assert [last][1..] == [];
      hide TargetId;
    }
  }

  lemma {:induction false} ClosureEdgesCount(states: States, a: int, qs: seq<int>, id: int)
    ensures multiset(ClosureEdges(states, a, qs, id))[ClosureEntry(a)] == EntriesTo(states, qs, id)
    ensures forall e :: e in ClosureEdges(states, a, qs, id) ==> e == ClosureEntry(a)
    decreases |qs|
  {
    if qs != [] {
      var before, last := qs[..|qs| - 1], qs[|qs| - 1];
      ClosureEdgesCount(states, a, before, id);
      assert qs == before + [last];
      EntriesSplit(states, before, [last], id);
      assert [last][1..] == [];
      hide TargetId;
    }
  }

  lemma CountConcat(x: seq<Edge>, y: seq<Edge>, e: Edge)
    ensures multiset(x + y)[e] == multiset(x)[e] + multiset(y)[e]
  {}

  lemma NotIn(x: seq<Edge>, e: Edge)
    requires e !in x
    ensures multiset(x)[e] == 0
  {}

  /** The edges of one kind from one block, as counted in its statements. */
  function Expected(states: States, e: Edge, id: int): nat {
    match e
    case Jump(a, c) => if a in states.items then JumpsTo(states, states.items[a].block.transitions, id, c) else 0
    case ClosureEntry(a) => if a in states.items then EntriesTo(states, states.items[a].block.closures, id) else 0
    case RootEntry => 0
  }

  /** The edges from one block. */
  function EdgesOf(states: States, a: int, id: int): seq<Edge>
    requires a in states.items
  {
    JumpEdges(states, a, states.items[a].block.transitions, id) + ClosureEdges(states, a, states.items[a].block.closures, id)
  }

  function SourceOf(e: Edge): Option<int> {
    if e.RootEntry? then None else Some(e.source)
  }

  lemma EdgesOfCount(states: States, a: int, id: int, e: Edge)
    requires a in states.items
    ensures multiset(EdgesOf(states, a, id))[e] == if SourceOf(e) == Some(a) then Expected(states, e, id) else 0
  {
    var block := states.items[a].block;
    JumpEdgesCount(states, a, block.transitions, id);
    ClosureEdgesCount(states, a, block.closures, id);
    hide JumpEdges, ClosureEdges, JumpsTo, EntriesTo;
    CountConcat(JumpEdges(states, a, block.transitions, id), ClosureEdges(states, a, block.closures, id), e);
    if !(e.Jump? && e.source == a) { NotIn(JumpEdges(states, a, block.transitions, id), e); }
    if e != ClosureEntry(a) { NotIn(ClosureEdges(states, a, block.closures, id), e); }
  }

  lemma EdgesFromNext(states: States, rest: seq<int>, a: int, id: int)
    requires a in states.items && forall b :: b in rest ==> b in states.items
    ensures (forall b :: b in rest + [a] ==> b in states.items)
    ensures EdgesFrom(states, rest + [a], id) == EdgesFrom(states, rest, id) + EdgesOf(states, a, id)
  {
    assert (rest + [a])[..|rest|] == rest;
    hide JumpEdges, ClosureEdges;
  }

  lemma {:induction false} EdgesFromCount(states: States, order: seq<int>, id: int, e: Edge)
    requires NoDup(order) && forall a :: a in order ==> a in states.items
    ensures multiset(EdgesFrom(states, order, id))[e]
         == if SourceOf(e).Some? && SourceOf(e).value in order then Expected(states, e, id) else 0
    decreases |order|
  {
    hide EdgesOf, Expected;
    if order != [] {
      var rest, a := order[..|order| - 1], order[|order| - 1];
      assert order == rest + [a] && a !in rest && NoDup(rest);
      hide NoDup;
      EdgesFromCount(states, rest, id, e);
      EdgesOfCount(states, a, id, e);
      EdgesFromNext(states, rest, a, id);
      hide EdgesFrom;
      CountConcat(EdgesFrom(states, rest, id), EdgesOf(states, a, id), e);
      assert SourceOf(e).Some? ==> (SourceOf(e).value in order <==> SourceOf(e).value in rest || SourceOf(e).value == a);
    }
  }

  /** The list of a block has exactly one edge for each jump, conditional or not, and each closure that is resolved to it,
      and one for the root call. */
  lemma EdgesAreCounted(states: States, root: Option<int>, id: int, e: Edge)
    requires FiledById(states)
    ensures multiset(IncomingEdges(states, root, id))[e] ==
            if e.RootEntry? then (if root == Some(id) then 1 else 0) else Expected(states, e, id)
  {
    EdgesFromCount(states, states.order, id, e);
    hide EdgesFrom;
    CountConcat(EdgesFrom(states, states.order, id), if root == Some(id) then [RootEntry] else [], e);
  }

  ghost predicate ComesBefore(order: seq<int>, a: int, b: int) {
    exists x, y :: 0 <= x <= y < |order| && order[x] == a && order[y] == b
  }

  /** `e` may stand in front of `f`: the root call is last, sources follow their order, and closures their jumps. */
  ghost predicate MayPrecede(order: seq<int>, e: Edge, f: Edge) {
    && !e.RootEntry?
    && (f.RootEntry? || (ComesBefore(order, e.source, f.source) && !(e.source == f.source && e.ClosureEntry? && f.Jump?)))
  }

  ghost predicate InOrder(order: seq<int>, edges: seq<Edge>) {
    forall i, j :: 0 <= i < j < |edges| ==> MayPrecede(order, edges[i], edges[j])
  }

  lemma InOrderConcat(order: seq<int>, x: seq<Edge>, y: seq<Edge>)
    requires InOrder(order, x) && InOrder(order, y)
    requires forall e, f :: e in x && f in y ==> MayPrecede(order, e, f)
    ensures InOrder(order, x + y)
  {
    hide MayPrecede;
    forall i, j | 0 <= i < j < |x + y| ensures MayPrecede(order, (x + y)[i], (x + y)[j]) {
      if i < |x| <= j { assert x[i] in x && y[j - |x|] in y; }
    }
  }

  lemma EdgesOfInOrder(states: States, a: int, id: int, order: seq<int>)
    requires a in states.items && ComesBefore(order, a, a)
    ensures InOrder(order, EdgesOf(states, a, id))
    ensures forall e :: e in EdgesOf(states, a, id) ==> !e.RootEntry? && e.source == a
  {
    var block := states.items[a].block;
    var jumps, entries := JumpEdges(states, a, block.transitions, id), ClosureEdges(states, a, block.closures, id);
    JumpEdgesCount(states, a, block.transitions, id);
    ClosureEdgesCount(states, a, block.closures, id);
    hide JumpEdges, ClosureEdges, ComesBefore, JumpsTo, EntriesTo;
    assert forall i :: 0 <= i < |jumps| ==> jumps[i] in jumps;
    assert forall i :: 0 <= i < |entries| ==> entries[i] in entries;
    InOrderConcat(order, jumps, entries);
  }

  lemma {:induction false} EdgesFromInOrder(states: States, n: nat, id: int)
    requires n <= |states.order| && NoDup(states.order) && forall a :: a in states.order ==> a in states.items
    requires forall a :: a in states.order[..n] ==> a in states.items
    ensures InOrder(states.order, EdgesFrom(states, states.order[..n], id))
    ensures forall e :: e in EdgesFrom(states, states.order[..n], id) ==> !e.RootEntry? && e.source in states.order[..n]
  {
    var order := states.order;
    if n > 0 {
      var rest, a := order[..n - 1], order[n - 1];
      assert order[..n] == rest + [a] && a !in rest;
      EdgesFromInOrder(states, n - 1, id);
      assert ComesBefore(order, a, a);
      EdgesOfInOrder(states, a, id, order);
      EdgesFromNext(states, rest, a, id);
      hide EdgesFrom, EdgesOf;
      forall b | b in rest ensures ComesBefore(order, b, a) {
        var x :| 0 <= x < n - 1 && rest[x] == b;
        assert order[x] == b;
      }
      NewSources(order, EdgesFrom(states, rest, id), EdgesOf(states, a, id), rest, a);
      hide ComesBefore;
      InOrderConcat(order, EdgesFrom(states, rest, id), EdgesOf(states, a, id));
    }
  }

  /** Edges of an earlier source may stand before those of `a`, which is also the case when it is the same one. */
  lemma NewSources(order: seq<int>, x: seq<Edge>, y: seq<Edge>, rest: seq<int>, a: int)
    requires forall e :: e in x ==> !e.RootEntry? && e.source in rest
    requires forall e :: e in y ==> !e.RootEntry? && e.source == a
    requires a !in rest && forall b :: b in rest ==> ComesBefore(order, b, a)
    ensures forall e, f :: e in x && f in y ==> MayPrecede(order, e, f)
  {}

  /** The edges come in order: per source, as the states were recorded, its jumps and then its closures, and last the root call. */
  lemma EdgesAreInOrder(states: States, root: Option<int>, id: int)
    requires FiledById(states)
    ensures InOrder(states.order, IncomingEdges(states, root, id))
  {
    assert states.order[..|states.order|] == states.order;
    EdgesFromInOrder(states, |states.order|, id);
    hide EdgesFrom;
    InOrderConcat(states.order, EdgesFrom(states, states.order, id), if root == Some(id) then [RootEntry] else []);
  }

  lemma JumpEdgesSnoc(states: States, a: int, ts: seq<Transition>, i: nat, id: int)
    requires i < |ts|
    ensures JumpEdges(states, a, ts[..i + 1], id) == JumpEdges(states, a, ts[..i], id) + JumpEdge(states, a, ts[i], id)
  {
    assert ts[..i + 1][..i] == ts[..i];
  }

  lemma ClosureEdgesSnoc(states: States, a: int, qs: seq<int>, i: nat, id: int)
    requires i < |qs|
    ensures ClosureEdges(states, a, qs[..i + 1], id) == ClosureEdges(states, a, qs[..i], id) + ClosureEdge(states, a, qs[i], id)
  {
    assert qs[..i + 1][..i] == qs[..i];
  }

  /** Every list has grown by the edges that transition `t` of block `a` makes. */
  ghost predicate Jumped(states: States, a: int, t: Transition, m: EdgeLists, m': EdgeLists) {
    m'.Keys == m.Keys && forall id :: id in m ==> m'[id] == m[id] + JumpEdge(states, a, t, id)
  }

  method ConnectJump(states: States, a: int, t: Transition, m: EdgeLists) returns (m': EdgeLists)
    requires FiledById(states) && m.Keys == states.items.Keys
    ensures Jumped(states, a, t, m, m')
  {
    m' := m;
    if t.Unconditional? || t.Conditional? {
      FindInIsFiled(states, states.order, t.target);
      var b := TargetId(states, t.target);
      if b.Some? {
        assert b.value in m;
        m' := m[b.value := m[b.value] + [Jump(a, t.Conditional?)]];
      }
      hide TargetId, FiledById;
    }
  }

  method ConnectJumps(states: States, a: int, before: EdgeLists) returns (m: EdgeLists)
    requires FiledById(states) && a in states.items && before.Keys == states.items.Keys
    ensures m.Keys == before.Keys
    ensures forall id :: id in m ==> m[id] == before[id] + JumpEdges(states, a, states.items[a].block.transitions, id)
  {
    var ts := states.items[a].block.transitions;
    m := before;
    for i := 0 to |ts|
      invariant m.Keys == before.Keys
      invariant forall id :: id in m ==> m[id] == before[id] + JumpEdges(states, a, ts[..i], id)
    {
      ghost var m0 := m;
      m := ConnectJump(states, a, ts[i], m);
      hide JumpEdges, JumpEdge, FiledById;
      forall id | id in m ensures m[id] == before[id] + JumpEdges(states, a, ts[..i + 1], id) {
        JumpEdgesSnoc(states, a, ts, i, id);
        ConcatAssoc(before[id], JumpEdges(states, a, ts[..i], id), JumpEdge(states, a, ts[i], id));
      }
    }
    assert ts[..|ts|] == ts;
  }

  method ConnectClosures(states: States, a: int, before: EdgeLists) returns (m: EdgeLists)
    requires FiledById(states) && a in states.items && before.Keys == states.items.Keys
    ensures m.Keys == before.Keys
    ensures forall id :: id in m ==> m[id] == before[id] + ClosureEdges(states, a, states.items[a].block.closures, id)
  {
    var qs := states.items[a].block.closures;
    m := before;
    for i := 0 to |qs|
      invariant m.Keys == before.Keys
      invariant forall id :: id in m ==> m[id] == before[id] + ClosureEdges(states, a, qs[..i], id)
    {
      ghost var m0 := m;
      FindInIsFiled(states, states.order, qs[i]);
      var b := TargetId(states, qs[i]);
      assert b.Some? ==> b.value in m;
      if b.Some? {
        m := m[b.value := m[b.value] + [ClosureEntry(a)]];
      }
      hide ClosureEdges, FiledById, TargetId;
      forall id | id in m ensures m[id] == before[id] + ClosureEdges(states, a, qs[..i + 1], id) {
        ClosureEdgesSnoc(states, a, qs, i, id);
        ConcatAssoc(before[id], ClosureEdges(states, a, qs[..i], id), ClosureEdge(states, a, qs[i], id));
      }
    }
    assert qs[..|qs|] == qs;
  }

  lemma EdgesFromSnoc(states: States, order: seq<int>, i: nat, id: int)
    requires i < |order| && forall a :: a in order ==> a in states.items
    ensures EdgesFrom(states, order[..i + 1], id)
         == EdgesFrom(states, order[..i], id)
            + JumpEdges(states, order[i], states.items[order[i]].block.transitions, id)
            + ClosureEdges(states, order[i], states.items[order[i]].block.closures, id)
  {
    assert order[..i + 1][..i] == order[..i];
    hide JumpEdges, ClosureEdges;
  }

  ghost predicate Connected(states: States, order: seq<int>, m: EdgeLists)
    requires forall a :: a in order ==> a in states.items
  {
    m.Keys == states.items.Keys && forall id :: id in m ==> m[id] == EdgesFrom(states, order, id)
  }

  method ConnectBlock(states: States, i: nat, m: EdgeLists) returns (m': EdgeLists)
    requires FiledById(states) && i < |states.order|
    requires Connected(states, states.order[..i], m)
    ensures Connected(states, states.order[..i + 1], m')
  {
    var a := states.order[i];
    var jumps := ConnectJumps(states, a, m);
    m' := ConnectClosures(states, a, jumps);
    hide JumpEdges, ClosureEdges, EdgesFrom, FiledById;
    forall id | id in m' ensures m'[id] == EdgesFrom(states, states.order[..i + 1], id) {
      EdgesFromSnoc(states, states.order, i, id);
    }
  }

  /** Builds the incoming edge lists of all states. */
  method ConnectEdges(states: States, root: Option<int>) returns (m: EdgeLists)
    requires FiledById(states) && (root.Some? ==> root.value in states.items)
    ensures m.Keys == states.items.Keys
    ensures forall id :: id in m ==> m[id] == IncomingEdges(states, root, id)
  {
    m := map id | id in states.items :: [];
    for i := 0 to |states.order|
      invariant Connected(states, states.order[..i], m)
    {
      m := ConnectBlock(states, i, m);
    }
    assert states.order[..|states.order|] == states.order;
    hide EdgesFrom;
    if root.Some? {
      m := m[root.value := m[root.value] + [RootEntry]];
    }
  }

  // ---------------------------------------------------------------- verdicts

  datatype Status = ProvenReachable | ConditionallyReachable | Unknown | ProvenUnreachable

  function Verdict(state: State, w: Work, incoming: seq<Edge>): Status {
    if state.id in w.proven then ProvenReachable
    else if state.id in w.conditional then ConditionallyReachable
    else if state.range.IsEmpty() then ProvenUnreachable
    else if incoming == [] && w.unknown == {} then ProvenUnreachable
    else Unknown
  }

  datatype Report = Report(proven: seq<int>, conditional: seq<int>, unknown: seq<int>, unreachable: seq<int>)

  /** The ids of `order` with status `s`, in order. */
  function WithStatus(order: seq<int>, status: map<int, Status>, s: Status): seq<int>
    requires forall id :: id in order ==> id in status
  {
    if order == [] then []
    else
      var last := order[|order| - 1];
      WithStatus(order[..|order| - 1], status, s) + if status[last] == s then [last] else []
  }

  lemma WithStatusSnoc(order: seq<int>, i: nat, status: map<int, Status>, s: Status)
    requires forall id :: id in order ==> id in status
    requires i < |order|
    ensures WithStatus(order[..i + 1], status, s) == WithStatus(order[..i], status, s) + if status[order[i]] == s then [order[i]] else []
  {
    assert order[..i + 1][..i] == order[..i];
  }

  ghost predicate IsReport(r: Report, order: seq<int>, status: map<int, Status>)
    requires forall id :: id in order ==> id in status
  {
    && r.proven == WithStatus(order, status, ProvenReachable)
    && r.conditional == WithStatus(order, status, ConditionallyReachable)
    && r.unknown == WithStatus(order, status, Unknown)
    && r.unreachable == WithStatus(order, status, ProvenUnreachable)
  }

  function Add(r: Report, id: int, s: Status): Report {
    match s
    case ProvenReachable => r.(proven := r.proven + [id])
    case ConditionallyReachable => r.(conditional := r.conditional + [id])
    case ProvenUnreachable => r.(unreachable := r.unreachable + [id])
    case Unknown => r.(unknown := r.unknown + [id])
  }

  lemma AddKeepsReport(r: Report, order: seq<int>, i: nat, status: map<int, Status>)
    requires forall id :: id in order ==> id in status
    requires i < |order| && IsReport(r, order[..i], status)
    ensures IsReport(Add(r, order[i], status[order[i]]), order[..i + 1], status)
  {
    WithStatusSnoc(order, i, status, ProvenReachable);
    WithStatusSnoc(order, i, status, ConditionallyReachable);
    WithStatusSnoc(order, i, status, Unknown);
    WithStatusSnoc(order, i, status, ProvenUnreachable);
    hide WithStatus;
  }

  ghost function AllListed(r: Report): multiset<int> {
    multiset(r.proven) + multiset(r.conditional) + multiset(r.unknown) + multiset(r.unreachable)
  }

  lemma AddLists(r: Report, id: int, s: Status)
    ensures AllListed(Add(r, id, s)) == AllListed(r) + multiset{id}
  {}

  /** The report on the first `i` ids. */
  function Tally(order: seq<int>, i: nat, status: map<int, Status>): Report
    requires forall id :: id in order ==> id in status
    requires i <= |order|
  {
    if i == 0 then Report([], [], [], []) else Add(Tally(order, i - 1, status), order[i - 1], status[order[i - 1]])
  }

  lemma {:induction false} TallyIsReport(order: seq<int>, i: nat, status: map<int, Status>)
    requires forall id :: id in order ==> id in status
    requires i <= |order|
    ensures IsReport(Tally(order, i, status), order[..i], status)
    decreases i
  {
    if i > 0 {
      TallyIsReport(order, i - 1, status);
      AddKeepsReport(Tally(order, i - 1, status), order, i - 1, status);
    }
  }

  lemma {:induction false} TallyLists(order: seq<int>, i: nat, status: map<int, Status>)
    requires forall id :: id in order ==> id in status
    requires i <= |order|
    ensures AllListed(Tally(order, i, status)) == multiset(order[..i])
    decreases i
  {
    if i > 0 {
      TallyLists(order, i - 1, status);
      AddLists(Tally(order, i - 1, status), order[i - 1], status[order[i - 1]]);
      MultisetSnoc(order, i - 1);
      hide AllListed, Add;
    }
  }

  /** The four lists partition the recorded states. */
  lemma ReportPartitions(r: Report, order: seq<int>, status: map<int, Status>)
    requires forall id :: id in order ==> id in status
    requires IsReport(r, order, status)
    ensures AllListed(r) == multiset(order)
  {
    assert order[..|order|] == order;
    TallyIsReport(order, |order|, status);
    TallyLists(order, |order|, status);
    hide AllListed, Tally, WithStatus;
    assert r == Tally(order, |order|, status);
  }

  method Categorize(states: States, w: Work, m: EdgeLists) returns (r: Report, status: map<int, Status>)
    requires FiledById(states) && m.Keys == states.items.Keys
    ensures status.Keys == states.items.Keys
    ensures forall id :: id in status ==> status[id] == Verdict(states.items[id], w, m[id])
    ensures forall id :: id in states.order ==> id in status
    ensures IsReport(r, states.order, status)
  {
    r, status := Report([], [], [], []), map id | id in states.items :: Verdict(states.items[id], w, m[id]);
    hide Verdict;
    for i := 0 to |states.order|
      invariant IsReport(r, states.order[..i], status)
    {
      AddKeepsReport(r, states.order, i, status);
      var id := states.order[i];
      match status[id]
      case ProvenReachable => r := r.(proven := r.proven + [id]);
      case ConditionallyReachable => r := r.(conditional := r.conditional + [id]);
      case ProvenUnreachable => r := r.(unreachable := r.unreachable + [id]);
      case Unknown => r := r.(unknown := r.unknown + [id]);
      hide IsReport;
    }
    assert states.order[..|states.order|] == states.order;
  }

  const ROOT_ENTRY_STATE: int := 13548685

  /** The verdict of state `id` in terms of what the recorded blocks can do. */
  ghost predicate Judged(states: States, id: int, s: Status)
    requires id in states.items
  {
    var root := TargetId(states, ROOT_ENTRY_STATE);
    match s
    case ProvenReachable => SurelyReached(states, root, id)
    case ConditionallyReachable => MaybeReached(states, root, id) && !SurelyReached(states, root, id)
    case ProvenUnreachable => !MaybeReached(states, root, id) && (states.items[id].range.IsEmpty() || Isolated(states, id))
    case Unknown => !MaybeReached(states, root, id) && !states.items[id].range.IsEmpty() && !Isolated(states, id)
  }

  /** No recorded block steps to `id` and no reached block has a dynamic transition. */
  ghost predicate Isolated(states: States, id: int) {
    var root := TargetId(states, ROOT_ENTRY_STATE);
    && root != Some(id) && (forall a :: !MayStep(states, a, id))
    && forall b :: MaybeReached(states, root, b) && b in states.items ==> !IsDynamic(states.items[b].block)
  }

  lemma NothingUnknown(states: States, root: Option<int>, w: Work)
    requires IsSearchResult(states, root, w)
    ensures w.unknown == {} <==> forall b :: MaybeReached(states, root, b) && b in states.items ==> !IsDynamic(states.items[b].block)
  {
    hide MaybeReached, SurelyReached, IsDynamic;
    if exists u :: u in w.unknown {
      var u :| u in w.unknown;
      assert MaybeReached(states, root, u) && IsDynamic(states.items[u].block);
    } else {
      forall b | MaybeReached(states, root, b) && b in states.items ensures !IsDynamic(states.items[b].block) {
        assert b !in w.unknown;
      }
    }
  }

  lemma VerdictIsJudgement(states: States, w: Work, id: int)
    requires FiledById(states) && id in states.items
    requires IsSearchResult(states, TargetId(states, ROOT_ENTRY_STATE), w)
    ensures Judged(states, id, Verdict(states.items[id], w, IncomingEdges(states, TargetId(states, ROOT_ENTRY_STATE), id)))
  {
    var root := TargetId(states, ROOT_ENTRY_STATE);
    NoIncomingEdges(states, root, id);
    NothingUnknown(states, root, w);
    assert id in w.proven <==> SurelyReached(states, root, id);
    assert id in w.Found() <==> MaybeReached(states, root, id);
    hide IncomingEdges, MayStep, IsDynamic, TargetId, SurelyReached, MaybeReached, IsSearchResult;
  }

  ghost predicate AllJudged(states: States, status: map<int, Status>) {
    status.Keys == states.items.Keys && forall id :: id in status ==> Judged(states, id, status[id])
  }

  lemma VerdictsAreJudgements(states: States, w: Work, m: EdgeLists, status: map<int, Status>)
    requires FiledById(states) && IsSearchResult(states, TargetId(states, ROOT_ENTRY_STATE), w)
    requires m.Keys == states.items.Keys && status.Keys == states.items.Keys
    requires forall id :: id in m ==> m[id] == IncomingEdges(states, TargetId(states, ROOT_ENTRY_STATE), id)
    requires forall id :: id in status ==> status[id] == Verdict(states.items[id], w, m[id])
    ensures AllJudged(states, status)
  {
    hide IsSearchResult, IncomingEdges, Verdict, Judged;
    forall id | id in status ensures Judged(states, id, status[id]) {
      VerdictIsJudgement(states, w, id);
    }
  }

  /** The whole audit: the four lists partition the recorded states, and each status is the judgement above. */
  method Audit(t: Tree) returns (states: States, r: Report, status: map<int, Status>)
    ensures states == StatesOf(t)
    ensures AllJudged(states, status)
    ensures forall id :: id in states.order ==> id in status
    ensures IsReport(r, states.order, status) && AllListed(r) == multiset(states.order)
  {
    var auditor := new CFGAuditor();
    auditor.TraverseTree(t, EVERYTHING);
    states := auditor.states;
    TraverseFilesById(t, EVERYTHING, NO_STATES);
    var rootBlock := auditor.FindBlock(ROOT_ENTRY_STATE);
    FindInIsFiled(states, states.order, ROOT_ENTRY_STATE);
    var root := if rootBlock.None? then None else Some(rootBlock.value.id);
    assert root == TargetId(states, ROOT_ENTRY_STATE);
    hide Traverse, FindIn, IncomingEdges, IsSearchResult, FiledById, WithStatus, AllJudged, AllListed, IsReport, TargetId;
    var m := ConnectEdges(states, root);
    var w := Search(states, root);
    r, status := Categorize(states, w, m);
    VerdictsAreJudgements(states, w, m, status);
    ReportPartitions(r, states.order, status);
  }
}

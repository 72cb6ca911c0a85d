/** The static side of the DAG engine (graph/graph.go): nodes, labelled edges, the
    edge indexes, and Kahn's algorithm as `Compile` runs it. */
module Graphs {
  import opened Sequences

  type NodeId = string

  datatype NodeKind = Agent | Chain | Parallel | Condition | Passthrough

  datatype Edge = Edge(from: NodeId, to: NodeId, branch: string)

  // ---------------------------------------------------------------- index lists

  /** The edges into `n`, in insertion order. */
  function InEdges(es: seq<Edge>, n: NodeId): (r: seq<Edge>)
    ensures forall e :: e in r <==> e in es && e.to == n
    ensures Distinct(es) ==> Distinct(r)
  {
    if es == [] then [] else
      var last := es[|es| - 1];
      assert es == es[..|es| - 1] + [last];
      var rest := InEdges(es[..|es| - 1], n);
      if last.to == n then rest + [last] else rest
  }

  /** The edges out of `n`, in insertion order. */
  function OutEdges(es: seq<Edge>, n: NodeId): (r: seq<Edge>)
    ensures forall e :: e in r <==> e in es && e.from == n
    ensures Distinct(es) ==> Distinct(r)
  {
    if es == [] then [] else
      var last := es[|es| - 1];
      assert es == es[..|es| - 1] + [last];
      var rest := OutEdges(es[..|es| - 1], n);
      if last.from == n then rest + [last] else rest
  }

  function Into(n: NodeId): Edge -> bool { (e: Edge) => e.to == n }

  function OutFrom(n: NodeId): Edge -> bool { (e: Edge) => e.from == n }

  /** Both lists are in insertion order. */
  lemma {:induction false} InEdgesInOrder(es: seq<Edge>, n: NodeId)
    ensures Filters(InEdges(es, n), es, Into(n))
  {
    hide Filters;
    if es == [] {
      FiltersNothing(Into(n));
    } else {
      var k := |es| - 1;
      assert es == es[..k] + [es[k]];
      InEdgesInOrder(es[..k], n);
      FiltersSnoc(InEdges(es[..k], n), es[..k], Into(n), es[k]);
    }
  }

  lemma {:induction false} OutEdgesInOrder(es: seq<Edge>, n: NodeId)
    ensures Filters(OutEdges(es, n), es, OutFrom(n))
  {
    hide Filters;
    if es == [] {
      FiltersNothing(OutFrom(n));
    } else {
      var k := |es| - 1;
      assert es == es[..k] + [es[k]];
      OutEdgesInOrder(es[..k], n);
      FiltersSnoc(OutEdges(es[..k], n), es[..k], OutFrom(n), es[k]);
    }
  }

  // ---------------------------------------------------------------- topology

  /** The value of a graph: what it contains once the builder calls have returned. */
  datatype Topology = Topology(nodes: map<NodeId, NodeKind>, edges: seq<Edge>) {
    /** What the builder keeps: no edge twice, both end points declared. */
    ghost predicate WellFormed() {
      Distinct(edges) && forall e :: e in edges ==> e.from in nodes && e.to in nodes
    }

    function In(n: NodeId): seq<Edge> { InEdges(edges, n) }

    function Out(n: NodeId): seq<Edge> { OutEdges(edges, n) }

    /** The node's kind is Condition: the test `newScheduler` and `skip` use. */
    predicate IsCond(n: NodeId) { n in nodes && nodes[n] == Condition }

    predicate HasLabeledOut(n: NodeId) { exists e :: e in edges && e.from == n && e.branch != "" }

    /** The test `complete` uses to decide that a node routes by branch label. */
    predicate Routes(n: NodeId) { IsCond(n) || HasLabeledOut(n) }
  }

  // ---------------------------------------------------------------- cycles and orders

  /** A closed walk: every node has an edge to the next one, the last one to the first. */
  ghost predicate IsCycle(g: Topology, p: seq<NodeId>) {
    |p| > 0 && forall i :: 0 <= i < |p| ==> Linked(g, p[i], p[if i + 1 < |p| then i + 1 else 0])
  }

  ghost predicate Linked(g: Topology, a: NodeId, b: NodeId) {
    exists e :: e in g.edges && e.from == a && e.to == b
  }

  ghost predicate Acyclic(g: Topology) {
    forall p :: !IsCycle(g, p)
  }

  function Pos(order: seq<NodeId>, n: NodeId): (k: nat)
    requires n in order
    ensures k < |order| && order[k] == n
  {
    if order[0] == n then 0 else 1 + Pos(order[1..], n)
  }

  lemma {:induction false} PosAt(order: seq<NodeId>, k: nat)
    requires Distinct(order) && k < |order|
    ensures Pos(order, order[k]) == k
  {
    var p := Pos(order, order[k]);
    assert order[p] == order[k];
  }

  /** `order` lists every node exactly once and every edge points forward. */
  ghost predicate IsTopological(g: Topology, order: seq<NodeId>) {
    && Distinct(order)
    && ToSet(order) == g.nodes.Keys
    && forall e :: e in g.edges ==> e.from in order && e.to in order && Pos(order, e.from) < Pos(order, e.to)
  }

  /** A topological order rules out cycles. */
  lemma {:induction false} TopologicalIsAcyclic(g: Topology, order: seq<NodeId>)
    requires IsTopological(g, order)
    ensures Acyclic(g)
  {
    forall p | IsCycle(g, p) ensures false {
      assert Linked(g, p[0], p[if 1 < |p| then 1 else 0]);
      ForwardAlong(g, order, p, |p| - 1);
    }
  }

  lemma {:induction false} ForwardAlong(g: Topology, order: seq<NodeId>, p: seq<NodeId>, k: nat)
    requires IsTopological(g, order) && IsCycle(g, p) && k < |p|
    ensures p[0] in order && p[k] in order && Pos(order, p[0]) <= Pos(order, p[k])
  {
    assert Linked(g, p[k], p[if k + 1 < |p| then k + 1 else 0]);
    if k > 0 {
      ForwardAlong(g, order, p, k - 1);
      assert Linked(g, p[k - 1], p[k]);
    }
  }

  // ---------------------------------------------------------------- the pigeonhole behind the cycle report

  /** Every member of `u` has a predecessor inside `u`. */
  ghost predicate EveryoneHasPred(g: Topology, u: set<NodeId>) {
    forall n {:trigger HasPredIn(g, u, n)} :: n in u ==> HasPredIn(g, u, n)
  }

  /** The nodes that lie on a cycle or behind one: the largest set in which everyone has a predecessor. */
  ghost predicate IsLeftover(g: Topology, rem: set<NodeId>) {
    EveryoneHasPred(g, rem) && forall u :: EveryoneHasPred(g, u) ==> u <= rem
  }

  ghost predicate HasPredIn(g: Topology, u: set<NodeId>, n: NodeId) {
    exists m :: m in u && Linked(g, m, n)
  }

  /** A finite non-empty set in which everyone has a predecessor contains a cycle: walk
      backwards until a node repeats. `p` is the walk so far, newest node first. */
  lemma {:induction false} WalkBack(g: Topology, u: set<NodeId>, p: seq<NodeId>) returns (c: seq<NodeId>)
    requires EveryoneHasPred(g, u)
    requires |p| > 0 && Distinct(p) && ToSet(p) <= u
    requires forall i :: 0 <= i < |p| - 1 ==> Linked(g, p[i], p[i + 1])
    ensures IsCycle(g, c) && ToSet(c) <= u
    decreases |u| - |p|
  {
    DistinctCard(p);
    SubsetCard(ToSet(p), u);
    assert p[0] in u && HasPredIn(g, u, p[0]);
    var m :| m in u && Linked(g, m, p[0]);
    if m in p {
      var k := Pos(p, m);
      c := p[..k + 1];
      forall i | 0 <= i < |c| ensures Linked(g, c[i], c[if i + 1 < |c| then i + 1 else 0]) {
        if i + 1 < |c| {
          assert c[i] == p[i] && c[i + 1] == p[i + 1];
        }
      }
    } else {
      var q := [m] + p;
      DistinctCard(q);
      SubsetCard(ToSet(q), u);
      c := WalkBack(g, u, q);
    }
  }

  lemma {:induction false} NoSourceMeansCycle(g: Topology, u: set<NodeId>) returns (c: seq<NodeId>)
    requires u != {} && EveryoneHasPred(g, u)
    ensures IsCycle(g, c) && ToSet(c) <= u
  {
    var n :| n in u;
    c := WalkBack(g, u, [n]);
  }

  // ---------------------------------------------------------------- the builder and Kahn's algorithm

  /** The edges into `n` that are not yet in `done`: what an in-degree counter counts. */
  function Unresolved(g: Topology, n: NodeId, done: set<Edge>): set<Edge> {
    set e | e in g.edges && e.to == n && e !in done
  }

  lemma UnresolvedInitially(g: Topology, n: NodeId)
    requires g.WellFormed()
    ensures |Unresolved(g, n, {})| == |g.In(n)|
  {
    assert Unresolved(g, n, {}) == ToSet(g.In(n));
    DistinctCard(g.In(n));
  }

  lemma ResolveOne(g: Topology, n: NodeId, done: set<Edge>, e: Edge)
    requires e in g.edges && e !in done
    ensures |Unresolved(g, n, done + {e})| == |Unresolved(g, n, done)| - (if e.to == n then 1 else 0)
  {
    if e.to == n {
      assert Unresolved(g, n, done + {e}) == Unresolved(g, n, done) - {e};
    } else {
      assert Unresolved(g, n, done + {e}) == Unresolved(g, n, done);
    }
  }

  ghost function OutIndex(nodes: set<NodeId>, es: seq<Edge>): map<NodeId, seq<Edge>> {
    map n | n in nodes :: OutEdges(es, n)
  }

  ghost function InIndex(nodes: set<NodeId>, es: seq<Edge>): map<NodeId, seq<Edge>> {
    map n | n in nodes :: InEdges(es, n)
  }

  lemma OutIndexStep(nodes: set<NodeId>, es: seq<Edge>, e: Edge)
    requires e.from in nodes
    ensures var o := OutIndex(nodes, es); OutIndex(nodes, es + [e]) == o[e.from := o[e.from] + [e]]
  {
    forall n | n in nodes ensures OutEdges(es + [e], n) == if n == e.from then OutEdges(es, n) + [e] else OutEdges(es, n) {
      assert (es + [e])[..|es|] == es;
    }
    hide OutEdges;
  }

  lemma InIndexStep(nodes: set<NodeId>, es: seq<Edge>, e: Edge)
    requires e.to in nodes
    ensures var o := InIndex(nodes, es); InIndex(nodes, es + [e]) == o[e.to := o[e.to] + [e]]
  {
    forall n | n in nodes ensures InEdges(es + [e], n) == if n == e.to then InEdges(es, n) + [e] else InEdges(es, n) {
      assert (es + [e])[..|es|] == es;
    }
    hide InEdges;
  }

  datatype SortResult = Sorted(order: seq<NodeId>) | CycleAmong(remaining: set<NodeId>)

  datatype CompileResult = Compiled(cg: CompiledGraph) | NoNodes | Cyclic(remaining: set<NodeId>)

  /** A graph checked by `Compile`, with the order Kahn's algorithm found. */
  datatype CompiledGraph = CompiledGraph(g: Topology, topoOrder: seq<NodeId>) {
    ghost predicate Valid() { g.WellFormed() && IsTopological(g, topoOrder) }
  }

  class Graph {
    var nodes: map<NodeId, NodeKind>
    var edges: seq<Edge>
    var outEdges: map<NodeId, seq<Edge>>
    var inEdges: map<NodeId, seq<Edge>>
    var dirty: bool

    ghost function Value(): Topology reads this { Topology(nodes, edges) }

    ghost predicate Indexed() reads this {
      && outEdges.Keys == nodes.Keys && inEdges.Keys == nodes.Keys
      && forall n :: n in nodes ==> outEdges[n] == Value().Out(n) && inEdges[n] == Value().In(n)
    }

    ghost predicate Valid() reads this {
      Value().WellFormed() && (!dirty ==> Indexed())
    }

    constructor ()
      ensures Valid() && Value() == Topology(map[], [])
    {
      nodes, edges, outEdges, inEdges, dirty := map[], [], map[], map[], false;
    }

    /** Declares a node; a second declaration of the same id is refused. */
    method AddNode(id: NodeId, kind: NodeKind) returns (ok: bool)
      requires Valid()
      modifies this
      ensures Valid()
      ensures ok == (id !in old(nodes))
      ensures Value() == if ok then old(Value()).(nodes := old(nodes)[id := kind]) else old(Value())
    {
      if id in nodes { return false; }
      nodes := nodes[id := kind];
      dirty := true;
      ok := true;
    }

    /** Adds an edge between declared nodes. Adding the same edge again succeeds and does nothing. */
    method AddLabeledEdge(from: NodeId, to: NodeId, branch: string) returns (ok: bool)
      requires Valid()
      modifies this
      ensures Valid()
      ensures ok == (from in old(nodes) && to in old(nodes))
      ensures Value() == if ok && Edge(from, to, branch) !in old(edges)
                         then old(Value()).(edges := old(edges) + [Edge(from, to, branch)]) else old(Value())
    {
      if from !in nodes || to !in nodes { return false; }
      var e := Edge(from, to, branch);
      for i := 0 to |edges|
        invariant e !in edges[..i]
      {
        if edges[i] == e { return true; }
      }
      edges := edges + [e];
      outEdges := outEdges[from := (if from in outEdges then outEdges[from] else []) + [e]];
      inEdges := inEdges[to := (if to in inEdges then inEdges[to] else []) + [e]];
      dirty := true;
      ok := true;
    }

    method RebuildIndexes()
      requires Valid()
      modifies this`outEdges, this`inEdges, this`dirty
      ensures Valid() && !dirty
    {
      outEdges := map n | n in nodes :: [];
      inEdges := map n | n in nodes :: [];
      for i := 0 to |edges|
        invariant outEdges == OutIndex(nodes.Keys, edges[..i])
        invariant inEdges == InIndex(nodes.Keys, edges[..i])
      {
        var e := edges[i];
        assert e in edges && edges[..i + 1] == edges[..i] + [e];
        OutIndexStep(nodes.Keys, edges[..i], e);
        InIndexStep(nodes.Keys, edges[..i], e);
        outEdges := outEdges[e.from := outEdges[e.from] + [e]];
        inEdges := inEdges[e.to := inEdges[e.to] + [e]];
      }
      assert edges[..|edges|] == edges;
      dirty := false;
    }

    /** Kahn's algorithm. A topological order of an acyclic graph, or else the nodes whose
        in-degree never reached zero, and those contain a cycle. */
    method TopoSort() returns (r: SortResult)
      requires Valid() && !dirty
      ensures r.Sorted? <==> Acyclic(Value())
      ensures r.Sorted? ==> IsTopological(Value(), r.order)
      ensures r.CycleAmong? ==> IsLeftover(Value(), r.remaining)
      ensures r.CycleAmong? ==> exists c :: IsCycle(Value(), c) && ToSet(c) <= r.remaining
    {
      ghost var g := Value();
      var inDegree := map n | n in nodes :: |inEdges[n]|;
      var order: seq<NodeId> := [];
      var queue := ZeroNodes(inDegree);
      KahnStart(g, inDegree, queue);
      while queue != []
        invariant KahnInv(g, inDegree, order, queue, EdgesFrom(g, order))
        decreases |nodes| - |order|
      {
        var nid := queue[0];
        KahnPop(g, inDegree, order, queue);
        queue := queue[1..];
        order := order + [nid];
        inDegree, queue := Relax(outEdges[nid], inDegree, queue, order, g);
      }
      DistinctCard(order);
      SubsetCard(ToSet(order), nodes.Keys);
      if |order| != |nodes| {
        var rem := set n | n in nodes && inDegree[n] > 0;
        assert |nodes.Keys| == |nodes|;
        StuckHasCycle(g, inDegree, order, rem);
        r := CycleAmong(rem);
      } else {
        r := Sorted(order);
        OrderIsTopological(g, order);
        TopologicalIsAcyclic(g, order);
      }
    }

    /** The nodes at in-degree zero, in whatever order the map is ranged over. */
    static method ZeroNodes(inDegree: map<NodeId, int>) returns (queue: seq<NodeId>)
      ensures Distinct(queue)
      ensures forall n :: n in queue <==> n in inDegree && inDegree[n] == 0
    {
      queue := [];
      var todo := inDegree.Keys;
      while todo != {}
        invariant todo <= inDegree.Keys
        invariant Distinct(queue)
        invariant forall n :: n in queue <==> n in inDegree.Keys - todo && inDegree[n] == 0
        decreases todo
      {
        var nid :| nid in todo;
        todo := todo - {nid};
        if inDegree[nid] == 0 { queue := queue + [nid]; }
      }
    }

    /** The inner loop: walks the out-edges of the node just taken off the queue. */
    static method Relax(out: seq<Edge>, inDegree0: map<NodeId, int>, queue0: seq<NodeId>,
                        ghost order: seq<NodeId>, ghost g: Topology)
      returns (inDegree: map<NodeId, int>, queue: seq<NodeId>)
      requires g.WellFormed() && |order| > 0 && out == g.Out(order[|order| - 1])
      requires KahnInv(g, inDegree0, order, queue0, EdgesFrom(g, order[..|order| - 1]))
      ensures KahnInv(g, inDegree, order, queue, EdgesFrom(g, order))
    {
      ghost var resolved := EdgesFrom(g, order[..|order| - 1]);
      inDegree, queue := inDegree0, queue0;
      OutAll(g, order);
      for j := 0 to |out|
        invariant KahnInv(g, inDegree, order, queue, resolved + ToSet(out[..j]))
      {
        OutPrefix(g, order, out, j);
        var e := out[j];
        KahnStep(g, inDegree, order, queue, resolved + ToSet(out[..j]), e);
        inDegree := inDegree[e.to := inDegree[e.to] - 1];
        if inDegree[e.to] == 0 { queue := queue + [e.to]; }
      }
      assert out[..|out|] == out;
    }

    method Compile() returns (r: CompileResult)
      requires Valid()
      modifies this`outEdges, this`inEdges, this`dirty
      ensures Valid()
      ensures r.NoNodes? <==> nodes == map[]
      ensures r.Compiled? <==> nodes != map[] && Acyclic(Value())
      ensures r.Compiled? ==> r.cg.g == Value() && r.cg.Valid()
      ensures r.Cyclic? ==> IsLeftover(Value(), r.remaining)
      ensures r.Cyclic? ==> exists c :: IsCycle(Value(), c) && ToSet(c) <= r.remaining
    {
      if |nodes| == 0 { return NoNodes; }
      if dirty { RebuildIndexes(); }
      var s := TopoSort();
      match s
      case Sorted(order) => r := Compiled(CompiledGraph(Topology(nodes, edges), order));
      case CycleAmong(rem) => r := Cyclic(rem);
    }
  }

  /** The edges out of the nodes of `order`: the ones Kahn's loop has walked. */
  ghost function EdgesFrom(g: Topology, order: seq<NodeId>): set<Edge> {
    set e | e in g.edges && e.from in order
  }

  ghost predicate CountsUnresolved(g: Topology, inDegree: map<NodeId, int>, resolved: set<Edge>) {
    && inDegree.Keys == g.nodes.Keys
    && forall n :: n in g.nodes ==> inDegree[n] == |Unresolved(g, n, resolved)|
  }

  lemma SameKeys<K, V>(m: map<K, V>, k: K, v: V)
    requires k in m
    ensures m[k := v].Keys == m.Keys
  {
  }

  lemma CountStep(g: Topology, inDegree: map<NodeId, int>, resolved: set<Edge>, e: Edge)
    requires g.WellFormed() && CountsUnresolved(g, inDegree, resolved)
    requires e in g.edges && e !in resolved
    ensures CountsUnresolved(g, inDegree[e.to := inDegree[e.to] - 1], resolved + {e})
    ensures inDegree[e.to] > 0
  {
    assert e in Unresolved(g, e.to, resolved);
    hide Unresolved;
    SameKeys(inDegree, e.to, inDegree[e.to] - 1);
    forall n | n in g.nodes
      ensures inDegree[e.to := inDegree[e.to] - 1][n] == |Unresolved(g, n, resolved + {e})|
    {
      ResolveOne(g, n, resolved, e);
    }
  }

  /** The nodes out or queued are those whose counter is zero, and none of them twice in the queue. */
  ghost predicate ReadyOrOut(inDegree: map<NodeId, int>, order: seq<NodeId>, queue: seq<NodeId>) {
    && Distinct(queue) && (forall n :: n in order ==> n !in queue)
    && (forall n :: n in order || n in queue <==> n in inDegree && inDegree[n] == 0)
  }

  /** What every iteration of Kahn's loop keeps: counters count unresolved edges, the nodes out
      or queued are those at zero, and each node already out comes after all its sources. */
  ghost predicate KahnInv(g: Topology, inDegree: map<NodeId, int>, order: seq<NodeId>, queue: seq<NodeId>,
                          resolved: set<Edge>) {
    && CountsUnresolved(g, inDegree, resolved)
    && Distinct(order) && ReadyOrOut(inDegree, order, queue)
    && ToSet(order) <= g.nodes.Keys
    && (forall k :: 0 <= k < |order| ==> SourcesBefore(g, order, k))
  }

  ghost predicate SourcesBefore(g: Topology, order: seq<NodeId>, k: nat)
    requires k < |order|
  {
    forall e :: e in g.edges && e.to == order[k] ==> e.from in order[..k]
  }

  lemma KahnStart(g: Topology, inDegree: map<NodeId, int>, queue: seq<NodeId>)
    requires g.WellFormed() && inDegree.Keys == g.nodes.Keys
    requires forall n :: n in g.nodes ==> inDegree[n] == |g.In(n)|
    requires Distinct(queue) && forall n :: n in queue <==> n in g.nodes && inDegree[n] == 0
    ensures KahnInv(g, inDegree, [], queue, EdgesFrom(g, []))
  {
    assert EdgesFrom(g, []) == {};
    forall n | n in g.nodes ensures inDegree[n] == |Unresolved(g, n, {})| {
      UnresolvedInitially(g, n);
    }
  }

  /** The node taken off the queue has all its sources already out. */
  lemma KahnPop(g: Topology, inDegree: map<NodeId, int>, order: seq<NodeId>, queue: seq<NodeId>)
    requires queue != [] && KahnInv(g, inDegree, order, queue, EdgesFrom(g, order))
    ensures KahnInv(g, inDegree, order + [queue[0]], queue[1..], EdgesFrom(g, order))
    ensures |order| < |g.nodes|
  {
    var nid, rest, order' := queue[0], queue[1..], order + [queue[0]];
    assert queue == [nid] + rest;
    DistinctSnoc(order, nid);
    assert Unresolved(g, nid, EdgesFrom(g, order)) == {};
    forall e | e in g.edges && e.to == nid ensures e.from in order {
      assert e in Unresolved(g, nid, EdgesFrom(g, order)) || e in EdgesFrom(g, order);
    }
    forall k | 0 <= k < |order'| ensures SourcesBefore(g, order', k) {
      if k < |order| {
        assert SourcesBefore(g, order, k) && order'[..k] == order[..k];
      } else {
        assert order'[..k] == order;
      }
    }
    DistinctCard(order');
    SubsetCard(ToSet(order'), g.nodes.Keys);
  }

  lemma OutPrefix(g: Topology, order: seq<NodeId>, out: seq<Edge>, j: nat)
    requires g.WellFormed() && Distinct(order)
    requires |order| > 0 && out == g.Out(order[|order| - 1]) && j < |out|
    ensures var r := EdgesFrom(g, order[..|order| - 1]);
            && out[j] in g.edges && out[j] !in r + ToSet(out[..j])
            && r + ToSet(out[..j + 1]) == r + ToSet(out[..j]) + {out[j]}
  {
    assert out[j] in out && Distinct(out);
    assert out[..j + 1] == out[..j] + [out[j]];
  }

  lemma OutAll(g: Topology, order: seq<NodeId>)
    requires g.WellFormed() && |order| > 0
    ensures var r, out := EdgesFrom(g, order[..|order| - 1]), g.Out(order[|order| - 1]);
            r + ToSet(out[..0]) == r && r + ToSet(out) == EdgesFrom(g, order)
  {
    assert order == order[..|order| - 1] + [order[|order| - 1]];
  }

  lemma QueueStep(inDegree: map<NodeId, int>, order: seq<NodeId>, queue: seq<NodeId>, to: NodeId)
    requires ReadyOrOut(inDegree, order, queue) && to in inDegree && inDegree[to] > 0
    ensures var d := inDegree[to := inDegree[to] - 1];
            ReadyOrOut(d, order, if d[to] == 0 then queue + [to] else queue)
  {
    assert to !in order && to !in queue;
    DistinctSnoc(queue, to);
    hide Distinct;
    var d := inDegree[to := inDegree[to] - 1];
    assert d.Keys == inDegree.Keys + {to};
  }

  lemma KahnStep(g: Topology, inDegree: map<NodeId, int>, order: seq<NodeId>, queue: seq<NodeId>,
                 resolved: set<Edge>, e: Edge)
    requires g.WellFormed() && KahnInv(g, inDegree, order, queue, resolved)
    requires e in g.edges && e !in resolved
    ensures var d := inDegree[e.to := inDegree[e.to] - 1];
            KahnInv(g, d, order, if d[e.to] == 0 then queue + [e.to] else queue, resolved + {e})
  {
    hide SourcesBefore, Distinct, ToSet, ReadyOrOut, Unresolved;
    CountStep(g, inDegree, resolved, e);
    QueueStep(inDegree, order, queue, e.to);
  }

  /** A node of the order cannot belong to a set in which everyone has a predecessor. */
  lemma {:induction false} NotInOrder(g: Topology, order: seq<NodeId>, u: set<NodeId>, k: nat)
    requires k < |order| && EveryoneHasPred(g, u) && forall i :: 0 <= i < |order| ==> SourcesBefore(g, order, i)
    ensures order[k] !in u
  {
    if order[k] in u {
      assert HasPredIn(g, u, order[k]);
      var m :| m in u && Linked(g, m, order[k]);
      assert SourcesBefore(g, order, k);
      var j :| 0 <= j < k && order[..k][j] == m;
      NotInOrder(g, order, u, j);
    }
  }

  lemma LeftoverIsLargest(g: Topology, inDegree: map<NodeId, int>, order: seq<NodeId>, rem: set<NodeId>)
    requires g.WellFormed() && KahnInv(g, inDegree, order, [], EdgesFrom(g, order))
    requires rem == set n | n in g.nodes && inDegree[n] > 0
    ensures forall u :: EveryoneHasPred(g, u) ==> u <= rem
  {
    forall u | EveryoneHasPred(g, u) ensures u <= rem {
      forall n | n in u ensures n in rem {
        assert HasPredIn(g, u, n);
        if n in order {
          var k :| 0 <= k < |order| && order[k] == n;
          NotInOrder(g, order, u, k);
        }
        assert inDegree[n] == |Unresolved(g, n, EdgesFrom(g, order))|;
      }
    }
  }

  lemma StuckHasCycle(g: Topology, inDegree: map<NodeId, int>, order: seq<NodeId>, rem: set<NodeId>)
    requires g.WellFormed() && KahnInv(g, inDegree, order, [], EdgesFrom(g, order))
    requires rem == set n | n in g.nodes && inDegree[n] > 0
    requires ToSet(order) != g.nodes.Keys
    ensures IsLeftover(g, rem)
    ensures exists c :: IsCycle(g, c) && ToSet(c) <= rem
  {
    LeftoverIsLargest(g, inDegree, order, rem);
    LeftoverHasPreds(g, inDegree, order, rem);
    hide EveryoneHasPred, KahnInv;
    var c := NoSourceMeansCycle(g, rem);
  }

  /** What is left is not empty, and everyone in it has an in-edge nobody walked. */
  lemma LeftoverHasPreds(g: Topology, inDegree: map<NodeId, int>, order: seq<NodeId>, rem: set<NodeId>)
    requires g.WellFormed() && KahnInv(g, inDegree, order, [], EdgesFrom(g, order))
    requires rem == set n | n in g.nodes && inDegree[n] > 0
    requires ToSet(order) != g.nodes.Keys
    ensures rem != {} && EveryoneHasPred(g, rem)
  {
    forall n | n in rem ensures HasPredIn(g, rem, n) {
      var e :| e in Unresolved(g, n, EdgesFrom(g, order));
      assert inDegree[e.from] == |Unresolved(g, e.from, EdgesFrom(g, order))|;
      assert e.from in rem && Linked(g, e.from, n);
    }
    var missing :| missing in g.nodes && missing !in ToSet(order);
    assert inDegree[missing] == |Unresolved(g, missing, EdgesFrom(g, order))|;
    assert missing in rem;
  }

  lemma OrderIsTopological(g: Topology, order: seq<NodeId>)
    requires g.WellFormed() && Distinct(order) && ToSet(order) == g.nodes.Keys
    requires forall k :: 0 <= k < |order| ==> SourcesBefore(g, order, k)
    ensures IsTopological(g, order)
  {
    forall e | e in g.edges ensures e.from in order && e.to in order && Pos(order, e.from) < Pos(order, e.to) {
      assert e.to in ToSet(order);
      var k := Pos(order, e.to);
      assert SourcesBefore(g, order, k);
      var j :| 0 <= j < k && order[..k][j] == e.from;
      PosAt(order, j);
    }
  }
}

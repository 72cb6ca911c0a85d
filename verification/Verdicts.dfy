/** What a run of a compiled graph must come to, node by node, as a function of the graph, the
    input and the node functions alone. The scheduler (Scheduler.dfy) is proved to reach it
    whatever order the nodes finish in. */
module Verdicts {
  import opened Graphs
  import opened GraphStates
  import opened Options

  /** The node functions after retries; None is an error. A condition function returns the chosen
      label and the state it leaves behind. */
  datatype NodeFns = NodeFns(run: (NodeId, Data) -> Option<Data>, choose: (NodeId, Data) -> Option<(string, Data)>)

  /** What executing node `n` on the data it inherited reports. */
  function Exec(g: Topology, fns: NodeFns, n: NodeId, parent: Data): Option<Data> {
    if g.IsCond(n) then
      match fns.choose(n, parent)
      case None => None
      case Some((choice, d)) =>
        if exists e :: e in g.edges && e.from == n && e.branch == choice
        then Some(d["branch" := Text(choice)]["output" := Text(choice)]) else None
    else fns.run(n, parent)
  }

  /** The branch a finished node's state names; a missing or non-string entry reads as "". */
  function Chosen(d: Data): string {
    if "branch" in d && d["branch"].Text? then d["branch"].text else ""
  }

  datatype Outcome = Done(data: Data) | Skipped | Stuck | Failed

  /** `complete` sends this node's edges through the branch counters although `newScheduler`
      filed them under the plain ones: a non-condition node with a labelled out-edge. */
  predicate Misroutes(g: Topology, n: NodeId) { !g.IsCond(n) && g.HasLabeledOut(n) }

  predicate SourcesIn<T>(g: Topology, n: NodeId, out: map<NodeId, T>) {
    forall e :: e in g.In(n) ==> e.from in out
  }

  /** The target of `e` can never become ready. */
  predicate Blocks(g: Topology, out: map<NodeId, Outcome>, e: Edge)
    requires e.from in out
  {
    out[e.from].Stuck? || out[e.from].Failed? || (out[e.from].Done? && Misroutes(g, e.from))
  }

  /** The source of `e` finished and chose `e`. */
  predicate Selects(out: map<NodeId, Outcome>, e: Edge)
    requires e.from in out
  {
    out[e.from].Done? && e.branch == Chosen(out[e.from].data)
  }

  function DoneData(out: map<NodeId, Outcome>): map<NodeId, Data> {
    map n | n in out && out[n].Done? :: out[n].data
  }

  /** The data node `n` starts from, given the data its predecessors left. */
  function Input(g: Topology, init: Data, n: NodeId, states: map<NodeId, Data>): Data {
    if g.In(n) == [] then init
    else match Join(g.In(n), states) case None => map[] case Some(d) => d
  }

  /** The verdict on one node given the verdicts on its sources. Skipping is decided locally: in-edges
      from conditions only, and none of them selected. */
  function Local(g: Topology, fns: NodeFns, init: Data, n: NodeId, out: map<NodeId, Outcome>): Outcome
    requires SourcesIn(g, n, out)
  {
    if exists e :: e in g.In(n) && Blocks(g, out, e) then Stuck
    else if g.In(n) != [] && forall e :: e in g.In(n) ==> g.IsCond(e.from) && !Selects(out, e) then Skipped
    else match Exec(g, fns, n, Input(g, init, n, DoneData(out)))
         case None => Failed
         case Some(d) => Done(d)
  }

  lemma {:induction false} JoinFrame(preds: seq<Edge>, a: map<NodeId, Data>, b: map<NodeId, Data>)
    requires forall e :: e in preds ==> (e.from in a <==> e.from in b)
    requires forall e :: e in preds && e.from in a ==> a[e.from] == b[e.from]
    ensures Join(preds, a) == Join(preds, b)
  {
    if preds != [] {
      var rest := preds[..|preds| - 1];
      assert preds == rest + [preds[|preds| - 1]];
      JoinFrame(rest, a, b);
    }
  }

  /** Only the sources' verdicts matter. */
  lemma LocalFrame(g: Topology, fns: NodeFns, init: Data, n: NodeId, a: map<NodeId, Outcome>, b: map<NodeId, Outcome>)
    requires SourcesIn(g, n, a) && SourcesIn(g, n, b)
    requires forall e :: e in g.In(n) ==> a[e.from] == b[e.from]
    ensures Local(g, fns, init, n, a) == Local(g, fns, init, n, b)
  {
    hide Exec, Join, InEdges, Topology.HasLabeledOut, Topology.IsCond;
    JoinFrame(g.In(n), DoneData(a), DoneData(b));
    assert Input(g, init, n, DoneData(a)) == Input(g, init, n, DoneData(b));
    hide Input;
    assert forall e :: e in g.In(n) ==> Blocks(g, a, e) == Blocks(g, b, e) && Selects(a, e) == Selects(b, e);
  }

  function Sources(g: Topology, n: NodeId): set<NodeId> { set e | e in g.In(n) :: e.from }

  /** The outcome of node `n`. The topological order serves only to end the recursion. */
  ghost function Verdict(cg: CompiledGraph, fns: NodeFns, init: Data, n: NodeId): Outcome
    requires cg.Valid() && n in cg.g.nodes
    decreases Pos(cg.topoOrder, n)
  {
    Local(cg.g, fns, init, n, map m | m in Sources(cg.g, n) :: Verdict(cg, fns, init, m))
  }

  ghost predicate Solves(g: Topology, fns: NodeFns, init: Data, out: map<NodeId, Outcome>)
    requires g.WellFormed()
  {
    out.Keys == g.nodes.Keys && forall n :: n in g.nodes ==> out[n] == Local(g, fns, init, n, out)
  }

  /** The local rules have exactly one solution on a DAG, so the verdicts do not depend on which
      topological order was used, nor on anything else about how the run went. */
  lemma {:induction false} VerdictUnique(cg: CompiledGraph, fns: NodeFns, init: Data, out: map<NodeId, Outcome>, n: NodeId)
    requires cg.Valid() && Solves(cg.g, fns, init, out) && n in cg.g.nodes
    ensures out[n] == Verdict(cg, fns, init, n)
    decreases Pos(cg.topoOrder, n)
  {
    var srcs := map m | m in Sources(cg.g, n) :: Verdict(cg, fns, init, m);
    forall e | e in cg.g.In(n) ensures out[e.from] == srcs[e.from] {
      VerdictUnique(cg, fns, init, out, e.from);
    }
    LocalFrame(cg.g, fns, init, n, out, srcs);
  }

  ghost function AllVerdicts(cg: CompiledGraph, fns: NodeFns, init: Data): map<NodeId, Outcome>
    requires cg.Valid()
  {
    map n | n in cg.g.nodes :: Verdict(cg, fns, init, n)
  }

  lemma VerdictIsLocal(cg: CompiledGraph, fns: NodeFns, init: Data, n: NodeId)
    requires cg.Valid() && n in cg.g.nodes
    ensures Verdict(cg, fns, init, n) == Local(cg.g, fns, init, n, AllVerdicts(cg, fns, init))
  {
    var srcs := map m | m in Sources(cg.g, n) :: Verdict(cg, fns, init, m);
    assert Verdict(cg, fns, init, n) == Local(cg.g, fns, init, n, srcs);
    LocalFrame(cg.g, fns, init, n, AllVerdicts(cg, fns, init), srcs);
  }

  /** ... and there is a solution: the verdicts themselves. */
  lemma VerdictsSolve(cg: CompiledGraph, fns: NodeFns, init: Data)
    requires cg.Valid()
    ensures Solves(cg.g, fns, init, AllVerdicts(cg, fns, init))
  {
    forall n | n in cg.g.nodes ensures Verdict(cg, fns, init, n) == Local(cg.g, fns, init, n, AllVerdicts(cg, fns, init)) {
      VerdictIsLocal(cg, fns, init, n);
    }
  }

  lemma OrderDoesNotMatter(cg1: CompiledGraph, cg2: CompiledGraph, fns: NodeFns, init: Data, n: NodeId)
    requires cg1.Valid() && cg2.Valid() && cg1.g == cg2.g && n in cg1.g.nodes
    ensures Verdict(cg1, fns, init, n) == Verdict(cg2, fns, init, n)
  {
    VerdictsSolve(cg1, fns, init);
    VerdictUnique(cg2, fns, init, AllVerdicts(cg1, fns, init), n);
  }
}

/** What a run computes, said without the verdicts: which data every node starts from, what it makes of
    them, which way conditions route, and which nodes are skipped. */
module RunSpec {
  import opened Graphs
  import opened GraphStates
  import opened Options
  import opened Verdicts
  import opened SchedulerState
  import opened Routing

  /** `d0` is what node `n` inherits: the run's input at an entry; elsewhere every key that some
      predecessor with a state has, with the value of the first such predecessor in in-edge order. */
  ghost predicate StartsOn(g: Topology, init: Data, states: map<NodeId, Data>, n: NodeId, d0: Data) {
    if g.In(n) == [] then d0 == init else
      && (forall k :: k in d0 <==> exists i :: FirstWith(g.In(n), states, k, i))
      && (forall k, i :: FirstWith(g.In(n), states, k, i) ==> k in d0 && d0[k] == states[g.In(n)[i].from][k])
  }

  /** A plain node leaves what its function returns. A condition routes along `pick`, the label of one of
      its out-edges, and leaves that label under "branch" and "output" in what its function returns. */
  ghost predicate Leaves(g: Topology, fns: NodeFns, n: NodeId, d0: Data, pick: string, d: Data) {
    if g.IsCond(n) then
      && fns.choose(n, d0).Some? && fns.choose(n, d0).value.0 == pick
      && (exists e :: e in g.edges && e.from == n && e.branch == pick)
      && d == fns.choose(n, d0).value.1["branch" := Text(pick)]["output" := Text(pick)]
    else fns.run(n, d0) == Some(d)
  }

  /** The node's function fails on `d0`, or picks a label that none of its out-edges has. */
  ghost predicate FailsOn(g: Topology, fns: NodeFns, n: NodeId, d0: Data) {
    if g.IsCond(n) then
      fns.choose(n, d0).Some? ==> forall e :: e in g.edges && e.from == n ==> e.branch != fns.choose(n, d0).value.0
    else fns.run(n, d0).None?
  }

  /** `n` is reached only through conditions, each itself skipped or with another pick. */
  ghost predicate PassedOver(g: Topology, done: set<NodeId>, skipped: set<NodeId>, picks: map<NodeId, string>, n: NodeId) {
    g.In(n) != [] && forall e :: e in g.In(n) ==>
      g.IsCond(e.from) && (e.from in skipped || (e.from in done && e.from in picks && picks[e.from] != e.branch))
  }

  /** Every node that completed did so on the right data and left the right data. */
  ghost predicate DataFlows(g: Topology, fns: NodeFns, init: Data, done: set<NodeId>, states: map<NodeId, Data>,
                            inputs: map<NodeId, Data>, picks: map<NodeId, string>) {
    forall n :: n in done ==>
      && n in states && n in inputs && n in picks
      && StartsOn(g, init, states, n, inputs[n]) && Leaves(g, fns, n, inputs[n], picks[n], states[n])
  }

  /** `n` waits for ever: behind a node that does, or behind a plain node with a labelled out-edge. */
  ghost predicate HeldBack(g: Topology, done: set<NodeId>, skipped: set<NodeId>, n: NodeId) {
    exists e :: e in g.In(n) && (e.from !in done + skipped || (e.from in done && LabelsOut(g, e.from)))
  }

  ghost predicate LabelsOut(g: Topology, n: NodeId) {
    !g.IsCond(n) && exists e :: e in g.edges && e.from == n && e.branch != ""
  }

  /** Where a run has got to: the nodes completed with the data they left, those skipped, and for the
      completed ones what they started on and which label their state names. */
  datatype Run = Run(done: set<NodeId>, skipped: set<NodeId>, states: map<NodeId, Data>,
                     inputs: map<NodeId, Data>, picks: map<NodeId, string>)

  /** A run without errors, at its end. */
  ghost predicate RunIs(g: Topology, fns: NodeFns, init: Data, r: Run) {
    && r.done <= g.nodes.Keys && r.skipped <= g.nodes.Keys && r.done !! r.skipped && r.states.Keys == r.done
    && DataFlows(g, fns, init, r.done, r.states, r.inputs, r.picks)
    && (forall n :: n in g.nodes ==> (n in r.skipped <==> PassedOver(g, r.done, r.skipped, r.picks, n)))
    && (forall n :: n in g.nodes ==> (n !in r.done + r.skipped <==> HeldBack(g, r.done, r.skipped, n)))
  }

  // ---------------------------------------------------------------- there is one such run only

  /** The two runs did the same with `n`. */
  ghost predicate AgreeAt(g: Topology, a: Run, b: Run, n: NodeId) {
    && (n in a.done <==> n in b.done) && (n in a.skipped <==> n in b.skipped)
    && (n in a.done ==> && n in a.states && n in b.states && a.states[n] == b.states[n]
                        && n in a.inputs && n in b.inputs && a.inputs[n] == b.inputs[n]
                        && (g.IsCond(n) ==> n in a.picks && n in b.picks && a.picks[n] == b.picks[n]))
  }

  lemma SameStart(g: Topology, init: Data, a: map<NodeId, Data>, b: map<NodeId, Data>, n: NodeId, x: Data, y: Data)
    requires StartsOn(g, init, a, n, x) && StartsOn(g, init, b, n, y)
    requires forall e :: e in g.In(n) ==> (e.from in a <==> e.from in b) && (e.from in a ==> a[e.from] == b[e.from])
    ensures x == y
  {
    hide InEdges;
    var preds := g.In(n);
    if preds != [] {
      assert forall i :: 0 <= i < |preds| ==> preds[i] in preds;
      forall k, i ensures FirstWith(preds, a, k, i) <==> FirstWith(preds, b, k, i) {
      }
      forall k ensures k in x <==> k in y { }
      forall k | k in x ensures x[k] == y[k] {
        var i :| FirstWith(preds, a, k, i);
      }
    }
  }

  lemma LeavesOnce(g: Topology, fns: NodeFns, n: NodeId, d0: Data, p: string, x: Data, q: string, y: Data)
    requires Leaves(g, fns, n, d0, p, x) && Leaves(g, fns, n, d0, q, y)
    ensures x == y && (g.IsCond(n) ==> p == q)
  {
  }

  lemma SameFate(g: Topology, a: Run, b: Run, n: NodeId)
    requires forall e :: e in g.In(n) ==> AgreeAt(g, a, b, e.from)
    ensures PassedOver(g, a.done, a.skipped, a.picks, n) <==> PassedOver(g, b.done, b.skipped, b.picks, n)
    ensures HeldBack(g, a.done, a.skipped, n) <==> HeldBack(g, b.done, b.skipped, n)
  {
    hide InEdges, LabelsOut;
  }

  /** So the order in which nodes report, which the code leaves to the goroutines, changes nothing. */
  lemma {:induction false} OneRunOnly(cg: CompiledGraph, fns: NodeFns, init: Data, a: Run, b: Run, n: NodeId)
    requires cg.Valid() && RunIs(cg.g, fns, init, a) && RunIs(cg.g, fns, init, b) && n in cg.g.nodes
    ensures AgreeAt(cg.g, a, b, n)
    decreases Pos(cg.topoOrder, n)
  {
    hide CompiledGraph.Valid, InEdges, StartsOn, Leaves, PassedOver, HeldBack;
    var g := cg.g;
    forall e | e in g.In(n) ensures AgreeAt(g, a, b, e.from) {
      SourceBefore(cg, n, e);
      OneRunOnly(cg, fns, init, a, b, e.from);
    }
    SameFate(g, a, b, n);
    if n in a.done {
      SameStart(g, init, a.states, b.states, n, a.inputs[n], b.inputs[n]);
      LeavesOnce(g, fns, n, a.inputs[n], a.picks[n], a.states[n], b.picks[n], b.states[n]);
    }
  }

  // ---------------------------------------------------------------- in every reachable state

  lemma InputIsStart(g: Topology, init: Data, n: NodeId, states: map<NodeId, Data>)
    ensures StartsOn(g, init, states, n, Input(g, init, n, states))
  {
    hide Join;
    var preds := g.In(n);
    if preds != [] {
      var d0 := Input(g, init, n, states);
      forall k
        ensures k in d0 <==> exists i :: FirstWith(preds, states, k, i)
        ensures forall i :: FirstWith(preds, states, k, i) ==> k in d0 && d0[k] == states[preds[i].from][k]
      {
        JoinFirstWins(preds, states, k);
      }
    }
  }

  lemma ExecLeaves(g: Topology, fns: NodeFns, n: NodeId, d0: Data, d: Data)
    requires Exec(g, fns, n, d0) == Some(d)
    ensures Leaves(g, fns, n, d0, Chosen(d), d) || !g.IsCond(n)
    ensures !g.IsCond(n) ==> forall pick :: Leaves(g, fns, n, d0, pick, d)
  {
    assert "branch"[0] != "output"[0];
  }

  lemma ExecFails(g: Topology, fns: NodeFns, n: NodeId, d0: Data)
    requires Exec(g, fns, n, d0).None?
    ensures FailsOn(g, fns, n, d0)
  {
  }

  /** The branch each completed node's state names. */
  ghost function PicksIn(s: Sched): map<NodeId, string> {
    map n | n in s.done && n in s.nodeStates :: Chosen(s.nodeStates[n])
  }

  ghost function InputsIn(g: Topology, init: Data, s: Sched): map<NodeId, Data> {
    map n | n in s.done :: Input(g, init, n, s.nodeStates)
  }

  lemma DataFlowsAlways(g: Topology, fns: NodeFns, init: Data, s: Sched)
    requires Inv(g, fns, init, s)
    ensures DataFlows(g, fns, init, s.done, s.nodeStates, InputsIn(g, init, s), PicksIn(s))
  {
    hide Exec, Input, StartsOn, Leaves, Counted, Accounted, Ready, Unreached, Chosen, InEdges;
    forall n | n in s.done
      ensures n in s.nodeStates && StartsOn(g, init, s.nodeStates, n, Input(g, init, n, s.nodeStates))
      ensures Leaves(g, fns, n, Input(g, init, n, s.nodeStates), Chosen(s.nodeStates[n]), s.nodeStates[n])
    {
      assert LeftWaiting(g, fns, init, s, n);
      InputIsStart(g, init, n, s.nodeStates);
      ExecLeaves(g, fns, n, Input(g, init, n, s.nodeStates), s.nodeStates[n]);
    }
  }

  /** The data a running node was started on. */
  lemma RunningStartsOn(g: Topology, fns: NodeFns, init: Data, s: Sched, n: NodeId)
    requires Inv(g, fns, init, s) && n in s.inflight
    ensures StartsOn(g, init, s.nodeStates, n, s.inflight[n])
  {
    hide Exec, Input, StartsOn, Counted, Accounted, Ready, Unreached, InEdges;
    assert LeftWaiting(g, fns, init, s, n);
    InputIsStart(g, init, n, s.nodeStates);
  }

  lemma PassedOverIs(g: Topology, s: Sched, n: NodeId)
    requires s.done <= s.nodeStates.Keys
    ensures OnlyUnchosen(g, s, n) <==> PassedOver(g, s.done, s.skipped, PicksIn(s), n)
  {
    hide InEdges, Chosen;
  }

  lemma HeldBackIs(cg: CompiledGraph, fns: NodeFns, init: Data, s: Sched, n: NodeId)
    requires cg.Valid() && n in cg.g.nodes && NoneFails(cg, fns, init)
    requires forall m :: m in cg.g.nodes ==>
      (m in s.done <==> Verdict(cg, fns, init, m).Done?) && (m in s.skipped <==> Verdict(cg, fns, init, m) == Skipped)
    ensures n !in s.done + s.skipped <==> HeldBack(cg.g, s.done, s.skipped, n)
  {
    hide Verdict, Exec, Input, InEdges, CompiledGraph.Valid;
    var out := VerdictUnfolds(cg, fns, init, n);
    forall e | e in cg.g.In(n)
      ensures Blocks(cg.g, out, e) <==> e.from !in s.done + s.skipped || (e.from in s.done && LabelsOut(cg.g, e.from))
    {
    }
  }
}

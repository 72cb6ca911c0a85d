/** The readiness scheduler of one graph run (graph/graph.go, `graphScheduler` and `runLoop`).
    Goroutines are the entries of `inflight`; any of them may report next. */
module Scheduler {
  import opened Graphs
  import opened GraphStates
  import opened Options
  import opened Sequences
  import opened Verdicts
  import opened SchedulerState
  import opened Routing
  import opened RunSpec

  /** The loop that classifies in-edges by the kind of their source. */
  method CondInCount(g: Topology, edges: seq<Edge>) returns (cond: nat)
    requires Distinct(edges)
    ensures cond == |set e | e in edges && g.IsCond(e.from)|
  {
    cond := 0;
    ghost var seen: set<Edge> := {};
    for i := 0 to |edges|
      invariant seen == (set e | e in edges[..i] && g.IsCond(e.from)) && cond == |seen|
    {
      var e := edges[i];
      assert e !in edges[..i] && edges[..i + 1] == edges[..i] + [e];
      if g.IsCond(e.from) {
        cond := cond + 1;
        seen := seen + {e};
      }
    }
    assert edges[..|edges|] == edges;
  }

  /** Each node is started at most once, and `running` counts the ones not yet reported. */
  ghost predicate Booked(running: int, launched: seq<NodeId>, s: Sched) {
    running == |s.inflight| && Distinct(launched) && ToSet(launched) == s.inflight.Keys + s.done
  }

  lemma BookLaunch(running: int, launched: seq<NodeId>, s: Sched, t: Sched, n: NodeId)
    requires Booked(running, launched, s) && n !in s.inflight && n !in s.done
    requires t.inflight.Keys == s.inflight.Keys + {n} && t.done == s.done
    ensures Booked(running + 1, launched + [n], t)
  {
    hide Distinct, ToSet;
    OneMore(launched, s.inflight.Keys, s.done, n);
    assert |t.inflight| == |t.inflight.Keys| && |s.inflight| == |s.inflight.Keys|;
  }

  lemma Whole<T>(s: seq<T>)
    ensures s[..|s|] == s
  {
  }

  lemma NothingAdded<T>(a: set<T>)
    ensures a + {} == a
  {
  }

  lemma OneLess<T>(all: set<T>, todo: set<T>, x: T)
    requires x in todo && todo <= all
    ensures all - (todo - {x}) == all - todo + {x}
  {
  }

  lemma OneMore<T(!new)>(launched: seq<T>, running: set<T>, done: set<T>, x: T)
    requires Distinct(launched) && ToSet(launched) == running + done && x !in running && x !in done
    ensures Distinct(launched + [x]) && ToSet(launched + [x]) == running + {x} + done && |running + {x}| == |running| + 1
  {
    assert x !in launched;
    assert forall y :: y in launched + [x] <==> y in launched || y == x;
  }

  lemma BookReport(running: int, launched: seq<NodeId>, s: Sched, n: NodeId, d: Data)
    requires Booked(running, launched, s) && n in s.inflight
    ensures Booked(running - 1, launched, Finish(s, n, d))
  {
    var t := Finish(s, n, d);
    assert t.inflight.Keys == s.inflight.Keys - {n};
    assert t.inflight.Keys + t.done == s.inflight.Keys + s.done;
  }

  /** Whatever has settled so far settled as its verdict says, with the verdict's data. */
  ghost predicate SettledAsVerdicts(cg: CompiledGraph, fns: NodeFns, init: Data, s: Sched)
    requires cg.Valid()
  {
    && s.done <= cg.g.nodes.Keys && s.skipped <= cg.g.nodes.Keys
    && (forall n :: n in s.done ==> n in s.nodeStates && Verdict(cg, fns, init, n) == Done(s.nodeStates[n]))
    && (forall n :: n in s.skipped ==> Verdict(cg, fns, init, n) == Skipped)
  }

  ghost predicate SomeFails(cg: CompiledGraph, fns: NodeFns, init: Data)
    requires cg.Valid()
  {
    exists n :: n in cg.g.nodes && Verdict(cg, fns, init, n) == Failed
  }

  /** Every node has settled, except those whose verdict is that they never can. */
  ghost predicate FinishedAsVerdicts(cg: CompiledGraph, fns: NodeFns, init: Data, s: Sched)
    requires cg.Valid()
  {
    forall n :: n in cg.g.nodes ==>
      && (n in s.done <==> Verdict(cg, fns, init, n).Done?)
      && (n in s.skipped <==> Verdict(cg, fns, init, n) == Skipped)
      && Verdict(cg, fns, init, n) != Failed
  }

  class GraphScheduler {
    const cg: CompiledGraph
    const fns: NodeFns
    const init: Data

    var remaining: map<NodeId, int>
    var condPending: map<NodeId, int>
    var condPassed: map<NodeId, int>
    var skipped: set<NodeId>
    var nodeStates: map<NodeId, Data>
    var inflight: map<NodeId, Data>  // started and not yet reported, with the data inherited
    var running: int

    ghost var launched: seq<NodeId>  // every goroutine ever started, in order
    ghost var done: set<NodeId>
    ghost var byRemaining: set<Edge>
    ghost var byCond: set<Edge>
    ghost var passed: set<Edge>

    ghost function View(): Sched reads this {
      Sched(remaining, condPending, condPassed, skipped, nodeStates, inflight, done, byRemaining, byCond, passed)
    }

    ghost predicate Valid() reads this {
      cg.Valid() && Inv(cg.g, fns, init, View()) && Booked(running, launched, View())
    }

    ghost predicate Pristine() reads this {
      launched == [] && inflight == map[] && done == {} && skipped == {} && nodeStates == map[] && byRemaining == {} && byCond == {}
    }

    /** `newScheduler`: condition in-edges are counted in `condPending`, the others in `remaining`. */
    constructor (cg: CompiledGraph, fns: NodeFns, init: Data)
      requires cg.Valid()
      ensures this.cg == cg && this.fns == fns && this.init == init
      ensures Valid() && Pristine()
    {
      this.cg, this.fns, this.init := cg, fns, init;
      remaining, condPending, condPassed := map[], map[], map[];
      skipped, nodeStates, inflight, running := {}, map[], map[], 0;
      launched, done, byRemaining, byCond, passed := [], {}, {}, {}, {};
      new;
      hide CountedOn, Inv, Booked, InEdges, Waiting, IsTopological, OutEdges, Distinct, CondIn;
      var g := cg.g;
      var todo := g.nodes.Keys;
      NothingCounted(g, View());
      while todo != {}
        invariant todo <= g.nodes.Keys
        invariant Pristine() && passed == {} && running == 0
        invariant CountedOn(g, View(), g.nodes.Keys - todo)
        decreases todo
      {
        var nid :| nid in todo;
        IndexesDistinct(cg, nid);
        CountInEdges(nid, g.nodes.Keys - todo);
        OneLess(g.nodes.Keys, todo, nid);
        todo := todo - {nid};
      }
      assert g.nodes.Keys - {} == g.nodes.Keys;
      InitialInv(cg, fns, init, View());
      assert ToSet(launched) == {};
      NobodyBooked(View());
    }

    /** The initial counters of one node. */
    method CountInEdges(nid: NodeId, ghost counted: set<NodeId>)
      requires cg.g.WellFormed() && Distinct(cg.g.In(nid))
      requires byRemaining == {} && byCond == {} && passed == {} && CountedOn(cg.g, View(), counted)
      modifies this`remaining, this`condPending, this`condPassed
      ensures CountedOn(cg.g, View(), counted + {nid})
    {
      hide CountedOn, InEdges, Topology.WellFormed, Distinct;
      var g := cg.g;
      ghost var s := View();
      var cond := CondInCount(g, g.In(nid));
      InitialCounts(g, s, nid, cond, counted);
      remaining := remaining[nid := |g.In(nid)| - cond];
      condPending := condPending[nid := cond];
      condPassed := condPassed[nid := 0];
      assert View() == InitCounters(g, s, nid, cond);
    }

    /** Dispatches every entry node on the run's input. */
    method StartEntries()
      requires Valid() && Pristine()
      modifies this
      ensures Valid() && AtRest(cg.g, View(), {}) && Flushed(cg.g, View())
      ensures done == {} && skipped == {} && inflight == map n | n in cg.g.nodes && cg.g.In(n) == [] :: init
      ensures nodeStates == inflight
    {
      hide Inv, AtRest, Booked, InEdges, Waiting, CompiledGraph.Valid, EntriesPending, LaunchEntry;
      var g := cg.g;
      PristineAtRest(cg, View());
      var order := cg.topoOrder;
      for i := 0 to |order|
        invariant Valid() && EntriesPending(cg, View(), i)
      {
        var nid := order[i];
        NextEntry(cg, fns, init, running, launched, View(), i);
        if |g.In(nid)| == 0 {
          StartEntry(nid);
        }
      }
      NoEntriesLeft(cg, View());
      EntriesRun(cg, fns, init, View());
    }

    method StartEntry(nid: NodeId)
      modifies this`nodeStates, this`running, this`inflight, this`launched
      ensures running == old(running) + 1 && launched == old(launched) + [nid]
      ensures View() == LaunchEntry(old(View()), nid, init)
    {
      nodeStates := nodeStates[nid := init];
      running := running + 1;
      inflight := inflight[nid := init];
      launched := launched + [nid];
    }

    /** Starts `nid` once every predecessor has settled, or skips it when it is reachable only
        through unselected branches. Called on the target of an edge just walked. */
    method TryStart(nid: NodeId)
      requires Valid() && nid in cg.g.nodes && cg.g.In(nid) != []
      requires AtRest(cg.g, View(), {nid})
      requires nid in skipped || Waiting(cg.g, View(), nid)
      modifies this
      ensures Valid() && AtRest(cg.g, View(), {})
      ensures Grows(cg.g, old(View()), View(), {})
      decreases |WaitingSet(cg.g, View())|, 1
    {
      hide Inv, AtRest, Grows, Ready, Unreached, Booked, Join, InEdges, CompiledGraph.Valid, Input, WaitingSet, CondIn;
      ghost var s := View();
      GrowsNothing(cg.g, s);
      CountersDecide(cg.g, fns, init, s, nid);
      if nid in skipped {
        RestWithout(cg.g, s, nid);
        return;
      }
      if remaining[nid] > 0 || condPending[nid] > 0 {
        RestWithout(cg.g, s, nid);
        return;
      }
      IndexesDistinct(cg, nid);
      var cond := CondInCount(cg.g, cg.g.In(nid));
      CondInIs(cg.g, nid);
      if condPassed[nid] == 0 && |cg.g.In(nid)| == cond && |cg.g.In(nid)| > 0 {
        Skip(nid);
      } else {
        Start(nid);
      }
    }

    /** Starts the goroutine of `nid` on the join of its predecessors' states. */
    method Start(nid: NodeId)
      requires Valid() && cg.g.In(nid) != []
      requires AtRest(cg.g, View(), {nid})
      requires Waiting(cg.g, View(), nid) && Ready(cg.g, View(), nid) && !Unreached(cg.g, View(), nid)
      modifies this`running, this`inflight, this`launched
      ensures Valid() && AtRest(cg.g, View(), {})
      ensures Grows(cg.g, old(View()), View(), {})
    {
      hide Inv, AtRest, Grows, Ready, Unreached, Booked, InEdges, CompiledGraph.Valid, Launch, Waiting;
      Launching(cg, fns, init, running, launched, View(), nid);
      Spawn(nid);
    }

    method Spawn(nid: NodeId)
      requires cg.g.In(nid) != []
      modifies this`running, this`inflight, this`launched
      ensures running == old(running) + 1 && launched == old(launched) + [nid]
      ensures View() == Launch(cg.g, init, old(View()), nid)
    {
      running := running + 1;
      var parent := match Join(cg.g.In(nid), nodeStates) case None => map[] case Some(d) => d;
      inflight := inflight[nid := parent];
      launched := launched + [nid];
    }

    /** Completes a node that will never run: its out-edges count as walked, and the cascade goes on. */
    method Skip(nid: NodeId)
      requires Valid() && nid in cg.g.nodes
      requires AtRest(cg.g, View(), {nid})
      requires nid in skipped || (Waiting(cg.g, View(), nid) && Unreached(cg.g, View(), nid))
      modifies this
      ensures Valid() && AtRest(cg.g, View(), {})
      ensures Grows(cg.g, old(View()), View(), {})
      decreases |WaitingSet(cg.g, View())|, 0
    {
      hide Inv, AtRest, Grows, Ready, Unreached, Booked, InEdges, OutEdges, CompiledGraph.Valid, WaitingSet, OutOf, ToSet, Walk;
      ghost var g, s := cg.g, View();
      GrowsNothing(g, s);
      CountersDecide(g, fns, init, s, nid);
      if nid in skipped {
        RestWithout(g, s, nid);
        return;
      }
      if remaining[nid] > 0 || condPending[nid] > 0 {
        RestWithout(g, s, nid);
        return;
      }
      SkipKeepsInv(g, fns, init, s, nid);
      skipped := skipped + {nid};
      ghost var t := View();
      assert t == SchedulerState.Skip(s, nid);
      BookSame(running, launched, s, t);
      WaitingShrinks(g, s, nid);
      GrowsNothing(g, t);
      var out := cg.g.Out(nid);
      OutIs(g, nid, out);
      for k := 0 to |out|
        invariant Valid() && AtRest(g, View(), {})
        invariant Grows(g, t, View(), ToSet(out[..k]))
      {
        var e := out[k];
        OutEdgeFresh(cg, t, View(), nid, out, k);
        GrowsFacts(g, t, View(), ToSet(out[..k]));
        var r := if cg.g.IsCond(nid) then Unselected else Plain;
        WalkAndTry(e, r, t, ToSet(out[..k]));
      }
      Whole(out);
      GrowsSkip(g, s, nid, View());
    }

    /** One round of the out-edge loops of `skip` and `complete`: decrement the counter the edge
        belongs to, then let the target try to start. */
    method WalkAndTry(e: Edge, r: Route, ghost t: Sched, ghost sofar: set<Edge>)
      requires Valid() && AtRest(cg.g, View(), {})
      requires e in cg.g.edges && e !in byRemaining + byCond && RightRoute(cg.g, View(), e, r)
      requires Grows(cg.g, t, View(), sofar)
      modifies this
      ensures Valid() && AtRest(cg.g, View(), {})
      ensures Grows(cg.g, t, View(), sofar + {e})
      decreases |WaitingSet(cg.g, View())|, 2
    {
      hide Inv, AtRest, Grows, Ready, Unreached, Booked, InEdges, OutEdges, CompiledGraph.Valid, RightRoute, Waiting, WaitingSet, Walk;
      ghost var g, u := cg.g, View();
      EdgeEnds(cg, e);
      CountersDecide(g, fns, init, u, e.to);
      WalkKeepsInv(g, fns, init, u, e, r);
      GrowsWalk(g, u, e, r);
      Decrement(e, r);
      ghost var v := View();
      GrowsTrans(g, t, u, v, sofar, {e});
      WaitingUnchanged(g, u, v);
      BookSame(running, launched, u, v);
      TryStart(e.to);
      GrowsTrans(g, t, v, View(), sofar + {e}, {});
      NothingAdded(sofar + {e});
    }

    /** The counter updates for one out-edge. */
    method Decrement(e: Edge, r: Route)
      requires e.to in remaining && e.to in condPending && e.to in condPassed
      modifies this`remaining, this`condPending, this`condPassed, this`byRemaining, this`byCond, this`passed
      ensures View() == Walk(old(View()), e, r)
    {
      match r {
        case Plain =>
          remaining := remaining[e.to := remaining[e.to] - 1];
          byRemaining := byRemaining + {e};
        case Unselected =>
          condPending := condPending[e.to := condPending[e.to] - 1];
          byCond := byCond + {e};
        case Selected =>
          condPassed := condPassed[e.to := condPassed[e.to] + 1];
          condPending := condPending[e.to := condPending[e.to] - 1];
          byCond, passed := byCond + {e}, passed + {e};
      }
    }

    /** A node has reported: walk its out-edges, along the chosen branch or plainly. */
    method Complete(doneID: NodeId)
      requires Valid() && AtRest(cg.g, View(), {})
      requires doneID in done && OutOf(cg.g, {doneID}) !! byRemaining + byCond
      modifies this
      ensures Valid() && AtRest(cg.g, View(), {})
      ensures Grows(cg.g, old(View()), View(), OutOf(cg.g, {doneID}))
    {
      hide Inv, AtRest, Grows, Booked, InEdges, OutEdges, CompiledGraph.Valid;
      ghost var g, t := cg.g, View();
      DoneHasState(g, fns, init, t, doneID);
      var isCond := cg.g.Routes(doneID);
      var chosen := if isCond && doneID in nodeStates then Chosen(nodeStates[doneID]) else "";
      var out := cg.g.Out(doneID);
      OutIs(g, doneID, out);
      GrowsNothing(g, t);
      for k := 0 to |out|
        invariant Valid() && AtRest(g, View(), {})
        invariant Grows(g, t, View(), ToSet(out[..k]))
      {
        var e := out[k];
        OutEdgeFresh(cg, t, View(), doneID, out, k);
        GrowsFacts(g, t, View(), ToSet(out[..k]));
        var r := if !isCond then Plain else if e.branch != chosen then Unselected else Selected;
        WalkAndTry(e, r, t, ToSet(out[..k]));
      }
      assert out[..|out|] == out;
    }

    /** A result taken off the channel. */
    method Receive(id: NodeId, d: Data)
      modifies this`running, this`inflight, this`done, this`nodeStates
      ensures running == old(running) - 1 && View() == Finish(old(View()), id, d)
    {
      running := running - 1;
      inflight := inflight - {id};
      done := done + {id};
      nodeStates := nodeStates[id := d];
    }

    /** The event loop. Whatever order the nodes report in, an error-free run ends with every node
        where its verdict says, and a run fails exactly when some node's verdict is a failure. What
        that comes to is `RunIs`: which nodes completed on which data, and which were skipped. */
    method RunLoop() returns (ok: bool, ghost inputs: map<NodeId, Data>, ghost picks: map<NodeId, string>)
      requires Valid() && Pristine()
      modifies this
      ensures ok <==> !SomeFails(cg, fns, init)
      ensures ok ==> running == 0 && inflight == map[]
      ensures ok ==> FinishedAsVerdicts(cg, fns, init, View())
      ensures ok ==> forall n :: n in cg.g.nodes ==> (n in skipped <==> OnlyUnchosen(cg.g, View(), n))
      ensures ok && LabelsOnlyOnConditions(cg.g) ==> done !! skipped && done + skipped == cg.g.nodes.Keys
      ensures SettledAsVerdicts(cg, fns, init, View())
      ensures DataFlows(cg.g, fns, init, done, nodeStates, inputs, picks)
      ensures ok ==> RunIs(cg.g, fns, init, Run(done, skipped, nodeStates, inputs, picks))
      ensures !ok ==> exists n :: n in inflight && StartsOn(cg.g, init, nodeStates, n, inflight[n]) && FailsOn(cg.g, fns, n, inflight[n])
      ensures Distinct(launched) && |launched| <= |cg.g.nodes|
      ensures ok ==> ToSet(launched) == done
    {
      hide Inv, AtRest, Grows, Booked, Flushed, CompiledGraph.Valid, Exec, SettledAsVerdicts, DataFlows, RunIs, StartsOn, FailsOn,
           InputsIn, PicksIn;
      StartEntries();
      while running > 0
        invariant Valid() && AtRest(cg.g, View(), {}) && Flushed(cg.g, View())
        decreases cg.g.nodes.Keys - done
      {
        ghost var s := View();
        SomeoneRunning(running, launched, s);
        var id :| id in inflight;  // any running node may report next
        StatusFacts(cg.g, fns, init, s, id);
        match Exec(cg.g, fns, id, inflight[id]) {
          case None =>
            SettledMatchesVerdict(cg, fns, init, s, id);
            assert Verdict(cg, fns, init, id) == Failed;
            FinalVerdicts(cg, fns, init, s);
            LaunchedFit(cg.g, fns, init, running, s, launched);
            RunningStartsOn(cg.g, fns, init, s, id);
            ExecFails(cg.g, fns, id, inflight[id]);
            DataFlowsAlways(cg.g, fns, init, s);
            return false, InputsIn(cg.g, init, s), PicksIn(s);
          case Some(d) =>
            FinishKeepsInv(cg.g, fns, init, s, id, d);
            BookReport(running, launched, s, id, d);
            Receive(id, d);
            ghost var t := View();
            assert Walked(t) == byRemaining + byCond;
            Complete(id);
            GrowsFacts(cg.g, t, View(), OutOf(cg.g, {id}));
            FlushedAgain(cg.g, s, t, View(), id);
        }
      }
      ok := true;
      FinalVerdicts(cg, fns, init, View());
      LaunchedFit(cg.g, fns, init, running, View(), launched);
      NothingRunning(running, launched, View());
      QuietVerdicts(cg, fns, init, View());
      QuietStatuses(cg, fns, init, View());
      inputs, picks := InputsIn(cg.g, init, View()), PicksIn(View());
      QuietRunIs(cg, fns, init, View());
    }
  }

  // ---------------------------------------------------------------- lemmas about the class's steps

  lemma IndexesDistinct(cg: CompiledGraph, n: NodeId)
    requires cg.Valid()
    ensures Distinct(cg.g.In(n)) && Distinct(cg.g.Out(n))
  {
  }

  lemma Launching(cg: CompiledGraph, fns: NodeFns, init: Data, running: int, launched: seq<NodeId>, s: Sched, nid: NodeId)
    requires Inv(cg.g, fns, init, s) && AtRest(cg.g, s, {nid}) && Booked(running, launched, s)
    requires Waiting(cg.g, s, nid) && Ready(cg.g, s, nid) && !Unreached(cg.g, s, nid)
    ensures var t := Launch(cg.g, init, s, nid);
            && Inv(cg.g, fns, init, t) && AtRest(cg.g, t, {}) && Grows(cg.g, s, t, {})
            && Booked(running + 1, launched + [nid], t)
  {
    hide Inv, AtRest, Grows, Ready, Unreached, Booked;
    LaunchKeepsInv(cg.g, fns, init, s, nid);
    GrowsLaunch(cg.g, init, s, nid);
    BookLaunch(running, launched, s, Launch(cg.g, init, s, nid), nid);
  }

  lemma CondInIs(g: Topology, n: NodeId)
    ensures (set e | e in g.In(n) && g.IsCond(e.from)) == CondIn(g, n)
  {
  }

  ghost predicate CountedOn(g: Topology, s: Sched, ns: set<NodeId>) {
    forall n {:trigger CountedAt(g, s, n)} :: n in ns ==> CountedAt(g, s, n)
  }

  lemma NothingCounted(g: Topology, s: Sched)
    ensures CountedOn(g, s, g.nodes.Keys - g.nodes.Keys)
  {
  }

  ghost function InitCounters(g: Topology, s: Sched, n: NodeId, cond: nat): Sched {
    s.(remaining := s.remaining[n := |g.In(n)| - cond], condPending := s.condPending[n := cond],
       condPassed := s.condPassed[n := 0])
  }

  lemma InitialAt(g: Topology, s: Sched, n: NodeId, cond: nat)
    requires g.WellFormed() && s.byRemaining == {} && s.byCond == {} && s.passed == {}
    requires cond == |CondIn(g, n)|
    ensures CountedAt(g, InitCounters(g, s, n, cond), n)
  {
    InParts(g, n);
    hide PlainIn, CondIn, Topology.WellFormed, Topology.In;
    NothingWalked(PlainIn(g, n), CondIn(g, n), s.byRemaining, s.byCond, s.passed);
    var t := InitCounters(g, s, n, cond);
    assert t.remaining[n] == |g.In(n)| - cond && t.condPending[n] == cond && t.condPassed[n] == 0;
    assert t.byRemaining == s.byRemaining && t.byCond == s.byCond && t.passed == s.passed;
    hide InitCounters;
  }

  lemma NothingWalked<T>(p: set<T>, c: set<T>, plain: set<T>, cond: set<T>, passed: set<T>)
    requires plain == {} && cond == {} && passed == {}
    ensures |p - plain| == |p| && |c - cond| - |p * cond| == |c| && |(p + c) * passed| == 0
  {
    assert p - plain == p && c - cond == c && p * cond == {} && (p + c) * passed == {};
  }

  lemma InitialCounts(g: Topology, s: Sched, n: NodeId, cond: nat, ns: set<NodeId>)
    requires g.WellFormed() && s.byRemaining == {} && s.byCond == {} && s.passed == {}
    requires cond == |set e | e in g.In(n) && g.IsCond(e.from)| && CountedOn(g, s, ns)
    ensures CountedOn(g, InitCounters(g, s, n, cond), ns + {n})
  {
    CondInIs(g, n);
    InitialAt(g, s, n, cond);
    var t := InitCounters(g, s, n, cond);
    forall m | m in ns + {n} ensures CountedAt(g, t, m) {
      if m != n { assert CountedAt(g, s, m); }
    }
  }

  lemma InitialInv(cg: CompiledGraph, fns: NodeFns, init: Data, s: Sched)
    requires cg.Valid() && CountedOn(cg.g, s, cg.g.nodes.Keys)
    requires s.done == {} && s.skipped == {} && s.nodeStates == map[] && s.inflight == map[]
    requires s.byRemaining == {} && s.byCond == {} && s.passed == {}
    ensures Inv(cg.g, fns, init, s)
  {
  }

  lemma NobodyBooked(s: Sched)
    requires s.inflight == map[] && s.done == {}
    ensures Booked(0, [], s)
  {
    assert ToSet<NodeId>([]) == {};
  }

  /** `startEntries` has got to position `i` of the order: the entries from there on are still to start. */
  ghost predicate EntriesPending(cg: CompiledGraph, s: Sched, i: nat)
    requires i <= |cg.topoOrder|
  {
    && s.done == {} && s.skipped == {} && s.byRemaining == {} && s.byCond == {} && s.nodeStates == s.inflight
    && AtRest(cg.g, s, EntriesFrom(cg, i))
    && forall n :: n in s.inflight ==> n in cg.topoOrder[..i]
  }

  ghost function EntriesFrom(cg: CompiledGraph, i: nat): set<NodeId>
    requires i <= |cg.topoOrder|
  {
    set n | n in cg.g.nodes && cg.g.In(n) == [] && n !in cg.topoOrder[..i]
  }

  lemma PristineAtRest(cg: CompiledGraph, s: Sched)
    requires cg.Valid() && s.byRemaining == {} && s.byCond == {}
    requires s.done == {} && s.skipped == {} && s.inflight == map[] && s.nodeStates == map[]
    ensures EntriesPending(cg, s, 0)
  {
    var g := cg.g;
    forall n | n in g.nodes && n !in EntriesFrom(cg, 0) ensures !Ready(g, s, n) {
      InIsPlainOrCond(g, n);
      assert g.In(n)[0] in ToSet(g.In(n));
    }
  }

  lemma NextEntry(cg: CompiledGraph, fns: NodeFns, init: Data, running: int, launched: seq<NodeId>, s: Sched, i: nat)
    requires cg.Valid() && i < |cg.topoOrder| && EntriesPending(cg, s, i)
    requires Inv(cg.g, fns, init, s) && Booked(running, launched, s)
    ensures var nid := cg.topoOrder[i];
            if |cg.g.In(nid)| != 0 then EntriesPending(cg, s, i + 1)
            else var t := LaunchEntry(s, nid, init);
              Inv(cg.g, fns, init, t) && Booked(running + 1, launched + [nid], t) && EntriesPending(cg, t, i + 1)
  {
    hide Inv, Booked, AtRest, InEdges, OutEdges, Waiting;
    var order := cg.topoOrder;
    var nid := order[i];
    assert order[..i + 1] == order[..i] + [nid];
    assert nid in ToSet(order) && nid !in order[..i];
    if |cg.g.In(nid)| == 0 {
      EntryKeepsInv(cg.g, fns, init, s, nid, EntriesFrom(cg, i));
      assert EntriesFrom(cg, i + 1) == EntriesFrom(cg, i) - {nid};
      BookLaunch(running, launched, s, LaunchEntry(s, nid, init), nid);
    } else {
      assert EntriesFrom(cg, i + 1) == EntriesFrom(cg, i);
    }
  }

  lemma NoEntriesLeft(cg: CompiledGraph, s: Sched)
    requires cg.Valid() && EntriesPending(cg, s, |cg.topoOrder|)
    ensures AtRest(cg.g, s, {}) && Flushed(cg.g, s)
  {
    assert cg.topoOrder[..|cg.topoOrder|] == cg.topoOrder;
    assert EntriesFrom(cg, |cg.topoOrder|) == {};
    assert OutOf(cg.g, {}) == {};
  }

  /** While nothing has settled, exactly the entries run, each on the run's input. */
  lemma EntriesRun(cg: CompiledGraph, fns: NodeFns, init: Data, s: Sched)
    requires cg.Valid() && Inv(cg.g, fns, init, s) && AtRest(cg.g, s, {}) && EntriesPending(cg, s, |cg.topoOrder|)
    ensures s.done == {} && s.skipped == {} && s.nodeStates == s.inflight
    ensures s.inflight == map n | n in cg.g.nodes && cg.g.In(n) == [] :: init
  {
    hide Inv, AtRest, InEdges;
    forall n | n in cg.g.nodes ensures n in s.inflight <==> cg.g.In(n) == [] {
      EntryRuns(cg.g, fns, init, s, n);
    }
    forall n | n in s.inflight ensures n in cg.g.nodes && s.inflight[n] == init {
      StatusFacts(cg.g, fns, init, s, n);
      EntryRuns(cg.g, fns, init, s, n);
    }
  }

  lemma EntryRuns(g: Topology, fns: NodeFns, init: Data, s: Sched, n: NodeId)
    requires Inv(g, fns, init, s) && AtRest(g, s, {}) && n in g.nodes
    requires s.done == {} && s.skipped == {} && s.byRemaining == {} && s.byCond == {}
    ensures n in s.inflight <==> g.In(n) == []
    ensures n in s.inflight ==> s.inflight[n] == init
  {
    hide InEdges;
    InIsPlainOrCond(g, n);
    assert g.In(n) != [] ==> g.In(n)[0] in ToSet(g.In(n));
    if n in s.inflight { assert LeftWaiting(g, fns, init, s, n); }
    if g.In(n) == [] { assert Ready(g, s, n); }
  }

  lemma WaitingShrinks(g: Topology, s: Sched, n: NodeId)
    requires Waiting(g, s, n)
    ensures |WaitingSet(g, Skip(s, n))| < |WaitingSet(g, s)|
  {
    assert WaitingSet(g, Skip(s, n)) == WaitingSet(g, s) - {n};
  }

  lemma WaitingUnchanged(g: Topology, s: Sched, t: Sched)
    requires s.inflight == t.inflight && s.done == t.done && s.skipped == t.skipped
    ensures WaitingSet(g, s) == WaitingSet(g, t)
  {
  }

  /** While the out-edges of a settled node are being walked, the cascades below cannot have
      walked the next one: they only walk edges of nodes they themselves skip. */
  lemma OutEdgeFresh(cg: CompiledGraph, t: Sched, u: Sched, n: NodeId, out: seq<Edge>, k: nat)
    requires cg.Valid() && out == cg.g.Out(n) && k < |out|
    requires Grows(cg.g, t, u, ToSet(out[..k])) && OutOf(cg.g, {n}) !! Walked(t)
    requires !Waiting(cg.g, t, n) && n in cg.g.nodes
    ensures out[k] in cg.g.edges && out[k].from == n && out[k] !in Walked(u)
    ensures ToSet(out[..k + 1]) == ToSet(out[..k]) + {out[k]}
  {
    assert out[k] in out && out[k] in OutOf(cg.g, {n});
    assert out[k] !in out[..k];
    assert out[..k + 1] == out[..k] + [out[k]];
    assert out[k] !in OutOf(cg.g, u.skipped - t.skipped);
  }

  lemma GrowsFacts(g: Topology, s: Sched, t: Sched, x: set<Edge>)
    requires Grows(g, s, t, x)
    ensures t.done == s.done && t.nodeStates == s.nodeStates && s.skipped <= t.skipped
    ensures |WaitingSet(g, t)| <= |WaitingSet(g, s)|
  {
    SubsetCard(WaitingSet(g, t), WaitingSet(g, s));
  }

  lemma OutIs(g: Topology, n: NodeId, out: seq<Edge>)
    requires out == g.Out(n)
    ensures ToSet(out) == OutOf(g, {n})
    ensures ToSet(out[..0]) == {}
  {
  }

  lemma EdgeEnds(cg: CompiledGraph, e: Edge)
    requires cg.Valid() && e in cg.g.edges
    ensures e.from in cg.g.nodes && e.to in cg.g.nodes && cg.g.In(e.to) != []
  {
    assert e in cg.g.In(e.to);
  }

  lemma BookSame(running: int, launched: seq<NodeId>, s: Sched, t: Sched)
    requires Booked(running, launched, s) && s.inflight == t.inflight && s.done == t.done
    ensures Booked(running, launched, t)
  {
  }

  lemma DoneHasState(g: Topology, fns: NodeFns, init: Data, s: Sched, n: NodeId)
    requires Inv(g, fns, init, s) && n in s.done
    ensures n in g.nodes && n in s.nodeStates && !Waiting(g, s, n)
  {
  }

  lemma FlushedAgain(g: Topology, s: Sched, t: Sched, u: Sched, n: NodeId)
    requires Flushed(g, s) && t.done == s.done + {n} && t.skipped == s.skipped && Walked(t) == Walked(s)
    requires Grows(g, t, u, OutOf(g, {n}))
    ensures Flushed(g, u)
  {
    assert OutOf(g, u.done + u.skipped) ==
           OutOf(g, s.done + s.skipped) + OutOf(g, {n}) + OutOf(g, u.skipped - t.skipped);
  }

  lemma FinalVerdicts(cg: CompiledGraph, fns: NodeFns, init: Data, s: Sched)
    requires cg.Valid() && Inv(cg.g, fns, init, s)
    ensures SettledAsVerdicts(cg, fns, init, s)
  {
    forall n | n in s.done ensures Verdict(cg, fns, init, n) == Done(s.nodeStates[n]) {
      SettledMatchesVerdict(cg, fns, init, s, n);
    }
    forall n | n in s.skipped ensures Verdict(cg, fns, init, n) == Skipped {
      SettledMatchesVerdict(cg, fns, init, s, n);
    }
  }

  lemma QuietVerdicts(cg: CompiledGraph, fns: NodeFns, init: Data, s: Sched)
    requires cg.Valid() && Inv(cg.g, fns, init, s) && AtRest(cg.g, s, {}) && Flushed(cg.g, s) && s.inflight == map[]
    ensures FinishedAsVerdicts(cg, fns, init, s)
  {
    forall n | n in cg.g.nodes
      ensures n in s.done <==> Verdict(cg, fns, init, n).Done?
      ensures n in s.skipped <==> Verdict(cg, fns, init, n) == Skipped
      ensures Verdict(cg, fns, init, n) != Failed
    {
      if Waiting(cg.g, s, n) {
        WaitingIsStuck(cg, fns, init, s, n);
      } else {
        SettledMatchesVerdict(cg, fns, init, s, n);
      }
    }
  }

  lemma QuietStatuses(cg: CompiledGraph, fns: NodeFns, init: Data, s: Sched)
    requires cg.Valid() && Inv(cg.g, fns, init, s) && AtRest(cg.g, s, {}) && Flushed(cg.g, s) && s.inflight == map[]
    ensures forall n :: n in cg.g.nodes ==> (n in s.skipped <==> OnlyUnchosen(cg.g, s, n))
    ensures LabelsOnlyOnConditions(cg.g) ==> s.done !! s.skipped && s.done + s.skipped == cg.g.nodes.Keys
  {
    hide Inv, AtRest, Flushed, OnlyUnchosen, LabelsOnlyOnConditions, CompiledGraph.Valid;
    forall n | n in cg.g.nodes ensures n in s.skipped <==> OnlyUnchosen(cg.g, s, n) {
      SkippedExactly(cg.g, fns, init, s, n);
    }
    if LabelsOnlyOnConditions(cg.g) { EveryNodeSettles(cg, fns, init, s); }
  }

  lemma QuietRunIs(cg: CompiledGraph, fns: NodeFns, init: Data, s: Sched)
    requires cg.Valid() && Inv(cg.g, fns, init, s) && FinishedAsVerdicts(cg, fns, init, s) && s.inflight == map[]
    requires forall n :: n in cg.g.nodes ==> (n in s.skipped <==> OnlyUnchosen(cg.g, s, n))
    ensures RunIs(cg.g, fns, init, Run(s.done, s.skipped, s.nodeStates, InputsIn(cg.g, init, s), PicksIn(s)))
    ensures DataFlows(cg.g, fns, init, s.done, s.nodeStates, InputsIn(cg.g, init, s), PicksIn(s))
  {
    hide Inv, OnlyUnchosen, CompiledGraph.Valid, Verdict, DataFlows, PassedOver, HeldBack, InputsIn, PicksIn, FinishedAsVerdicts;
    DataFlowsAlways(cg.g, fns, init, s);
    StatusesOf(cg.g, fns, init, s);
    forall n | n in cg.g.nodes
      ensures n in s.skipped <==> PassedOver(cg.g, s.done, s.skipped, PicksIn(s), n)
      ensures n !in s.done + s.skipped <==> HeldBack(cg.g, s.done, s.skipped, n)
    {
      PassedOverIs(cg.g, s, n);
      HeldBackAt(cg, fns, init, s, n);
    }
  }

  lemma StatusesOf(g: Topology, fns: NodeFns, init: Data, s: Sched)
    requires Inv(g, fns, init, s)
    ensures s.done <= g.nodes.Keys && s.skipped <= g.nodes.Keys && s.done !! s.skipped && s.done <= s.nodeStates.Keys
    ensures s.inflight == map[] ==> s.nodeStates.Keys == s.done
  {
  }

  lemma HeldBackAt(cg: CompiledGraph, fns: NodeFns, init: Data, s: Sched, n: NodeId)
    requires cg.Valid() && FinishedAsVerdicts(cg, fns, init, s) && n in cg.g.nodes
    ensures n !in s.done + s.skipped <==> HeldBack(cg.g, s.done, s.skipped, n)
  {
    hide CompiledGraph.Valid, Verdict, HeldBack;
    HeldBackIs(cg, fns, init, s, n);
  }

  lemma LaunchedFit(g: Topology, fns: NodeFns, init: Data, running: int, s: Sched, launched: seq<NodeId>)
    requires Inv(g, fns, init, s) && Booked(running, launched, s)
    ensures Distinct(launched) && |launched| <= |g.nodes|
  {
    DistinctCard(launched);
    SubsetCard(ToSet(launched), g.nodes.Keys);
  }

  lemma SomeoneRunning(running: int, launched: seq<NodeId>, s: Sched)
    requires Booked(running, launched, s) && running > 0
    ensures exists n :: n in s.inflight
  {
    assert s.inflight.Keys != {};
  }

  lemma NothingRunning(running: int, launched: seq<NodeId>, s: Sched)
    requires Booked(running, launched, s) && running <= 0
    ensures running == 0 && s.inflight == map[] && ToSet(launched) == s.done
  {
  }

  lemma StatusFacts(g: Topology, fns: NodeFns, init: Data, s: Sched, n: NodeId)
    requires Inv(g, fns, init, s) && n in s.inflight
    ensures n in g.nodes && !Waiting(g, s, n) && n !in s.done && n !in s.skipped
  {
  }
}

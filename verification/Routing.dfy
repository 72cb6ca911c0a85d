/** When every node of a run settles. `newScheduler` files an edge under a counter by the kind of
    its source; `complete` picks the counter by whether the source has labelled out-edges. The two
    disagree on a non-condition node with a labelled out-edge, and that is the only way an
    error-free run can leave a node neither completed nor skipped. */
module Routing {
  import opened Graphs
  import opened GraphStates
  import opened Options
  import opened Sequences
  import opened Verdicts
  import opened SchedulerState

  /** Only condition nodes have labelled out-edges. */
  ghost predicate LabelsOnlyOnConditions(g: Topology) {
    forall n :: !Misroutes(g, n)
  }

  ghost predicate AllSettle(cg: CompiledGraph, fns: NodeFns, init: Data)
    requires cg.Valid()
  {
    forall n :: n in cg.g.nodes ==> Verdict(cg, fns, init, n) != Stuck
  }

  ghost predicate NoneFails(cg: CompiledGraph, fns: NodeFns, init: Data)
    requires cg.Valid()
  {
    forall n :: n in cg.g.nodes ==> Verdict(cg, fns, init, n) != Failed
  }

  /** The skip rule of the verdicts: in-edges from conditions only, and every one of those was itself
      skipped or chose another branch. */
  lemma SkippedIff(cg: CompiledGraph, fns: NodeFns, init: Data, n: NodeId)
    requires cg.Valid() && n in cg.g.nodes
    ensures Verdict(cg, fns, init, n) == Skipped <==>
              cg.g.In(n) != [] && forall e :: e in cg.g.In(n) ==>
                cg.g.IsCond(e.from) &&
                match Verdict(cg, fns, init, e.from)
                case Skipped => true
                case Done(d) => Chosen(d) != e.branch
                case _ => false
  {
    hide Verdict, Exec, Input, InEdges, Chosen, CompiledGraph.Valid;
    var out := VerdictUnfolds(cg, fns, init, n);
    assert forall e :: e in cg.g.In(n) && cg.g.IsCond(e.from) && (out[e.from].Done? || out[e.from].Skipped?) ==>
      !Blocks(cg.g, out, e);
  }

  /** Without misrouting, an error-free run settles every node. */
  lemma {:induction false} SettlesWithoutMisrouting(cg: CompiledGraph, fns: NodeFns, init: Data, n: NodeId)
    requires cg.Valid() && n in cg.g.nodes && LabelsOnlyOnConditions(cg.g) && NoneFails(cg, fns, init)
    ensures Verdict(cg, fns, init, n) != Stuck
    decreases Pos(cg.topoOrder, n)
  {
    hide Verdict, Exec, Input, InEdges, Misroutes;
    VerdictIsLocal(cg, fns, init, n);
    var out := AllVerdicts(cg, fns, init);
    forall e | e in cg.g.In(n) ensures !Blocks(cg.g, out, e) {
      SettlesWithoutMisrouting(cg, fns, init, e.from);
    }
  }

  lemma TargetStrands(cg: CompiledGraph, fns: NodeFns, init: Data, e: Edge)
    requires cg.Valid() && e in cg.g.edges && Misroutes(cg.g, e.from) && Verdict(cg, fns, init, e.from).Done?
    ensures Verdict(cg, fns, init, e.to) == Stuck
  {
    hide Verdict, Exec, Input, Misroutes;
    VerdictIsLocal(cg, fns, init, e.to);
    assert e in cg.g.In(e.to);
    assert Blocks(cg.g, AllVerdicts(cg, fns, init), e);
  }

  // ---------------------------------------------------------------- which graphs always settle

  /** What becomes of a node when all that is known of a run is the branch each condition picks. */
  datatype Fate = Reached | Passed | Stranded | Failing

  function Branch(pick: map<NodeId, string>, n: NodeId): string { if n in pick then pick[n] else "" }

  predicate HasBranch(g: Topology, n: NodeId, branch: string) {
    exists e :: e in g.edges && e.from == n && e.branch == branch
  }

  /** `e` keeps its target from ever becoming ready. */
  predicate Strands(g: Topology, fates: map<NodeId, Fate>, e: Edge)
    requires e.from in fates
  {
    fates[e.from].Stranded? || fates[e.from].Failing? || (fates[e.from].Reached? && Misroutes(g, e.from))
  }

  predicate Takes(pick: map<NodeId, string>, fates: map<NodeId, Fate>, e: Edge)
    requires e.from in fates
  {
    fates[e.from].Reached? && e.branch == Branch(pick, e.from)
  }

  function LocalFate(g: Topology, pick: map<NodeId, string>, n: NodeId, fates: map<NodeId, Fate>): Fate
    requires SourcesIn(g, n, fates)
  {
    if exists e :: e in g.In(n) && Strands(g, fates, e) then Stranded
    else if g.In(n) != [] && forall e :: e in g.In(n) ==> g.IsCond(e.from) && !Takes(pick, fates, e) then Passed
    else if g.IsCond(n) && !HasBranch(g, n, Branch(pick, n)) then Failing
    else Reached
  }

  /** Computed from the graph and the picks alone, along the edges. */
  ghost function FateOf(cg: CompiledGraph, pick: map<NodeId, string>, n: NodeId): Fate
    requires cg.Valid() && n in cg.g.nodes
    decreases Pos(cg.topoOrder, n)
  {
    LocalFate(cg.g, pick, n, map m | m in Sources(cg.g, n) :: FateOf(cg, pick, m))
  }

  function FateIn(o: Outcome): Fate {
    match o case Done(_) => Reached case Skipped => Passed case Stuck => Stranded case Failed => Failing
  }

  /** Where the run got, it picked as `pick` says, and it failed only at conditions without that branch. */
  ghost predicate PicksAt(cg: CompiledGraph, fns: NodeFns, init: Data, pick: map<NodeId, string>, n: NodeId)
    requires cg.Valid() && n in cg.g.nodes
  {
    match Verdict(cg, fns, init, n)
    case Done(d) => cg.g.IsCond(n) ==> HasBranch(cg.g, n, Branch(pick, n)) && Chosen(d) == Branch(pick, n)
    case Failed => cg.g.IsCond(n) && !HasBranch(cg.g, n, Branch(pick, n))
    case _ => true
  }

  /** The sources' fates are the kinds of their verdicts, and the picks are their choices. */
  ghost predicate FatesAgree(g: Topology, pick: map<NodeId, string>, n: NodeId, fates: map<NodeId, Fate>, out: map<NodeId, Outcome>) {
    && SourcesIn(g, n, fates) && SourcesIn(g, n, out)
    && forall e :: e in g.In(n) ==>
         && fates[e.from] == FateIn(out[e.from])
         && (out[e.from].Done? && g.IsCond(e.from) ==> Chosen(out[e.from].data) == Branch(pick, e.from))
  }

  lemma LocalsAgree(g: Topology, fns: NodeFns, init: Data, pick: map<NodeId, string>, n: NodeId,
                    fates: map<NodeId, Fate>, out: map<NodeId, Outcome>)
    requires FatesAgree(g, pick, n, fates, out)
    ensures var v, f := Local(g, fns, init, n, out), LocalFate(g, pick, n, fates);
            && (v.Stuck? <==> f.Stranded?) && (v.Skipped? <==> f.Passed?)
            && (f.Failing? ==> g.IsCond(n) && !HasBranch(g, n, Branch(pick, n)))
            && (f.Reached? && g.IsCond(n) ==> HasBranch(g, n, Branch(pick, n)))
  {
    hide Exec, Input, InEdges, Misroutes, HasBranch, Chosen;
    forall e | e in g.In(n)
      ensures Strands(g, fates, e) <==> Blocks(g, out, e)
      ensures g.IsCond(e.from) ==> (Takes(pick, fates, e) <==> Selects(out, e))
    {
    }
  }

  /** At one node, given its sources: the fate is the kind of the verdict. */
  lemma FateStep(cg: CompiledGraph, fns: NodeFns, init: Data, pick: map<NodeId, string>, n: NodeId)
    requires cg.Valid() && n in cg.g.nodes && PicksAt(cg, fns, init, pick, n)
    requires forall e :: e in cg.g.In(n) ==>
      PicksAt(cg, fns, init, pick, e.from) && FateOf(cg, pick, e.from) == FateIn(Verdict(cg, fns, init, e.from))
    ensures FateOf(cg, pick, n) == FateIn(Verdict(cg, fns, init, n))
  {
    hide Verdict, Local, LocalFate, FateOf, HasBranch, Chosen, InEdges, CompiledGraph.Valid;
    var fates := FateUnfolds(cg, pick, n);
    var out := VerdictUnfolds(cg, fns, init, n);
    assert FatesAgree(cg.g, pick, n, fates, out);
    hide FatesAgree, Sources;
    LocalsAgree(cg.g, fns, init, pick, n, fates, out);
  }

  lemma FateUnfolds(cg: CompiledGraph, pick: map<NodeId, string>, n: NodeId) returns (fates: map<NodeId, Fate>)
    requires cg.Valid() && n in cg.g.nodes
    ensures SourcesIn(cg.g, n, fates) && FateOf(cg, pick, n) == LocalFate(cg.g, pick, n, fates)
    ensures forall e :: e in cg.g.In(n) ==> e.from in cg.g.nodes && fates[e.from] == FateOf(cg, pick, e.from)
  {
    fates := map m | m in Sources(cg.g, n) :: FateOf(cg, pick, m);
    hide LocalFate;
  }

  lemma VerdictUnfolds(cg: CompiledGraph, fns: NodeFns, init: Data, n: NodeId) returns (out: map<NodeId, Outcome>)
    requires cg.Valid() && n in cg.g.nodes
    ensures SourcesIn(cg.g, n, out) && Verdict(cg, fns, init, n) == Local(cg.g, fns, init, n, out)
    ensures forall e :: e in cg.g.In(n) ==> e.from in cg.g.nodes && out[e.from] == Verdict(cg, fns, init, e.from)
  {
    out := map m | m in Sources(cg.g, n) :: Verdict(cg, fns, init, m);
    hide Local;
  }

  lemma SourceBefore(cg: CompiledGraph, n: NodeId, e: Edge)
    requires cg.Valid() && e in cg.g.In(n)
    ensures e.from in cg.g.nodes && n in cg.g.nodes && Pos(cg.topoOrder, e.from) < Pos(cg.topoOrder, n)
  {
  }

  /** The branches picked decide the kind of every verdict. */
  lemma {:induction false} FateIsVerdict(cg: CompiledGraph, fns: NodeFns, init: Data, pick: map<NodeId, string>, n: NodeId)
    requires cg.Valid() && n in cg.g.nodes && forall m :: m in cg.g.nodes ==> PicksAt(cg, fns, init, pick, m)
    ensures FateOf(cg, pick, n) == FateIn(Verdict(cg, fns, init, n))
    decreases Pos(cg.topoOrder, n)
  {
    hide Verdict, FateOf, PicksAt, InEdges, CompiledGraph.Valid, FateIn;
    forall e | e in cg.g.In(n)
      ensures e.from in cg.g.nodes && PicksAt(cg, fns, init, pick, e.from)
      ensures FateOf(cg, pick, e.from) == FateIn(Verdict(cg, fns, init, e.from))
    {
      SourceBefore(cg, n, e);
      FateIsVerdict(cg, fns, init, pick, e.from);
    }
    FateStep(cg, fns, init, pick, n);
  }

  /** Under these picks nothing fails, and a misrouting node is reached. */
  ghost predicate StrandsUnder(cg: CompiledGraph, pick: map<NodeId, string>)
    requires cg.Valid()
  {
    && (forall n :: n in cg.g.nodes ==> !FateOf(cg, pick, n).Failing?)
    && exists b :: b in cg.g.nodes && Misroutes(cg.g, b) && FateOf(cg, pick, b).Reached?
  }

  ghost predicate CanStrand(cg: CompiledGraph)
    requires cg.Valid()
  {
    exists pick :: StrandsUnder(cg, pick)
  }

  /** Behind a stranded node stands a misrouting node that is reached, if nothing fails. */
  lemma {:induction false} StrandedHasMisrouter(cg: CompiledGraph, pick: map<NodeId, string>, n: NodeId) returns (b: NodeId)
    requires cg.Valid() && n in cg.g.nodes && FateOf(cg, pick, n).Stranded?
    requires forall m :: m in cg.g.nodes ==> !FateOf(cg, pick, m).Failing?
    ensures b in cg.g.nodes && Misroutes(cg.g, b) && FateOf(cg, pick, b).Reached?
    decreases Pos(cg.topoOrder, n)
  {
    hide FateOf, Misroutes, HasBranch, Takes, InEdges;
    var fates := FateUnfolds(cg, pick, n);
    var e :| e in cg.g.In(n) && Strands(cg.g, fates, e);
    SourceBefore(cg, n, e);
    if fates[e.from].Stranded? { b := StrandedHasMisrouter(cg, pick, e.from); } else { b := e.from; }
  }

  // ---------------------------------------------------------------- a misrouting node can always be reached

  /** A chain of condition edges that keeps `n` from being skipped. */
  ghost function PathTo(cg: CompiledGraph, n: NodeId): seq<Edge>
    requires cg.Valid() && n in cg.g.nodes
    decreases Pos(cg.topoOrder, n)
  {
    var ins := cg.g.In(n);
    if ins == [] || exists e :: e in ins && !cg.g.IsCond(e.from) then []
    else
      assert ins[0] in ins;
      PathTo(cg, ins[0].from) + [ins[0]]
  }

  /** The branch a condition picks: along the path if it is on it, otherwise its first out-edge's. */
  ghost function Pick(g: Topology, path: seq<Edge>, n: NodeId): string {
    if path == [] then (if g.Out(n) == [] then "" else g.Out(n)[0].branch)
    else if path[0].from == n then path[0].branch
    else Pick(g, path[1..], n)
  }

  /** The picks that lead along `path`. */
  ghost function Along(g: Topology, path: seq<Edge>): map<NodeId, string> { map n | n in g.nodes :: Pick(g, path, n) }

  ghost predicate ConditionsLead(g: Topology) {
    forall n :: n in g.nodes && g.IsCond(n) ==> g.Out(n) != []
  }

  lemma {:induction false} PickIsBranch(g: Topology, path: seq<Edge>, n: NodeId)
    requires g.Out(n) != [] && forall e :: e in path ==> e in g.edges
    ensures HasBranch(g, n, Pick(g, path, n))
  {
    if path == [] {
      assert g.Out(n)[0] in g.Out(n);
    } else if path[0].from == n {
      assert path[0] in path;
    } else {
      assert forall e :: e in path[1..] ==> e in path;
      PickIsBranch(g, path[1..], n);
    }
  }

  /** Sources along a path come in strictly increasing position, and before the path's end. */
  lemma {:induction false} PathForward(cg: CompiledGraph, n: NodeId)
    requires cg.Valid() && n in cg.g.nodes
    ensures forall e :: e in PathTo(cg, n) ==> e in cg.g.edges && Pos(cg.topoOrder, e.from) < Pos(cg.topoOrder, n)
    ensures var p := PathTo(cg, n); forall i, j :: 0 <= i < j < |p| ==> p[i].from != p[j].from
    decreases Pos(cg.topoOrder, n)
  {
    var p := PathTo(cg, n);
    if p != [] {
      var e := cg.g.In(n)[0];
      assert e in cg.g.In(n);
      PathForward(cg, e.from);
      assert p == PathTo(cg, e.from) + [e];
      forall i, j | 0 <= i < j < |p| ensures p[i].from != p[j].from {
        assert p[i] in PathTo(cg, e.from);
      }
    }
  }

  lemma {:induction false} PickOnPath(g: Topology, path: seq<Edge>, k: nat)
    requires k < |path| && forall i, j :: 0 <= i < j < |path| ==> path[i].from != path[j].from
    ensures Pick(g, path, path[k].from) == path[k].branch
  {
    if k > 0 { PickOnPath(g, path[1..], k - 1); }
  }

  lemma AlongNeverFails(cg: CompiledGraph, path: seq<Edge>, n: NodeId)
    requires cg.Valid() && n in cg.g.nodes && ConditionsLead(cg.g) && forall e :: e in path ==> e in cg.g.edges
    ensures !FateOf(cg, Along(cg.g, path), n).Failing?
  {
    hide FateOf, Pick, HasBranch, InEdges, Misroutes;
    var fates := FateUnfolds(cg, Along(cg.g, path), n);
    if cg.g.IsCond(n) { PickIsBranch(cg.g, path, n); }
  }

  /** The last step of the path to `n`, if `n` needs one, and where it stands on the path to `b`. */
  lemma LastStep(cg: CompiledGraph, b: NodeId, n: NodeId) returns (e: Edge)
    requires cg.Valid() && b in cg.g.nodes && n in cg.g.nodes && PathTo(cg, n) <= PathTo(cg, b)
    requires cg.g.In(n) != [] && forall e :: e in cg.g.In(n) ==> cg.g.IsCond(e.from)
    ensures e in cg.g.In(n) && e.from in cg.g.nodes && Pos(cg.topoOrder, e.from) < Pos(cg.topoOrder, n)
    ensures PathTo(cg, e.from) <= PathTo(cg, b) && Pick(cg.g, PathTo(cg, b), e.from) == e.branch
  {
    hide Pick, InEdges;
    e := cg.g.In(n)[0];
    assert e in cg.g.In(n);
    SourceBefore(cg, n, e);
    var p, path := PathTo(cg, n), PathTo(cg, b);
    assert p == PathTo(cg, e.from) + [e];
    var k := |p| - 1;
    assert path[k] == e && PathTo(cg, e.from) == p[..k];
    hide PathTo;
    PathForward(cg, b);
    PickOnPath(cg.g, path, k);
  }

  /** Picking along the path to `b` passes no node on that path over. */
  lemma {:induction false} PathNotPassed(cg: CompiledGraph, b: NodeId, n: NodeId)
    requires cg.Valid() && b in cg.g.nodes && n in cg.g.nodes && ConditionsLead(cg.g)
    requires PathTo(cg, n) <= PathTo(cg, b)
    ensures !FateOf(cg, Along(cg.g, PathTo(cg, b)), n).Passed?
    decreases Pos(cg.topoOrder, n)
  {
    hide FateOf, InEdges, Pick, PathTo, ConditionsLead, HasBranch, Misroutes, CompiledGraph.Valid;
    var g, pick := cg.g, Along(cg.g, PathTo(cg, b));
    var fates := FateUnfolds(cg, pick, n);
    if g.In(n) != [] && forall e :: e in g.In(n) ==> g.IsCond(e.from) {
      var e := LastStep(cg, b, n);
      PathInGraph(cg, b);
      PathNotPassed(cg, b, e.from);
      AlongNeverFails(cg, PathTo(cg, b), e.from);
      assert Strands(g, fates, e) || Takes(pick, fates, e);
    }
  }

  lemma PathInGraph(cg: CompiledGraph, b: NodeId)
    requires cg.Valid() && b in cg.g.nodes
    ensures forall e :: e in PathTo(cg, b) ==> e in cg.g.edges
  {
    hide PathTo;
    PathForward(cg, b);
  }

  /** Whatever the rest of the graph looks like, a misrouting node strands some node under some picks. */
  lemma MisroutingStrands(cg: CompiledGraph, b: NodeId)
    requires cg.Valid() && b in cg.g.nodes && Misroutes(cg.g, b) && ConditionsLead(cg.g)
    ensures CanStrand(cg)
  {
    hide FateOf, PathTo, Misroutes, ConditionsLead, CompiledGraph.Valid;
    var path := PathTo(cg, b);
    var pick := Along(cg.g, path);
    PathInGraph(cg, b);
    forall n | n in cg.g.nodes ensures !FateOf(cg, pick, n).Failing? { AlongNeverFails(cg, path, n); }
    PathNotPassed(cg, b, b);
    if FateOf(cg, pick, b).Stranded? { var x := StrandedHasMisrouter(cg, pick, b); }
    assert StrandsUnder(cg, pick);
  }

  // ---------------------------------------------------------------- runs and picks

  /** Node functions that pass their input on and pick as told. */
  ghost function Following(pick: map<NodeId, string>): NodeFns {
    NodeFns((n, d) => Some(d), (n, d) => Some((Branch(pick, n), d)))
  }

  lemma FollowingExec(g: Topology, pick: map<NodeId, string>, n: NodeId, d: Data)
    ensures var r := Exec(g, Following(pick), n, d);
            && (r.None? <==> g.IsCond(n) && !HasBranch(g, n, Branch(pick, n)))
            && (r.Some? && g.IsCond(n) ==> Chosen(r.value) == Branch(pick, n))
  {
    assert "branch"[0] != "output"[0];
  }

  lemma FollowingPicks(cg: CompiledGraph, pick: map<NodeId, string>, init: Data, n: NodeId)
    requires cg.Valid() && n in cg.g.nodes
    ensures PicksAt(cg, Following(pick), init, pick, n)
  {
    hide Verdict, Exec, Input, InEdges, Misroutes, HasBranch, Chosen, Following;
    var fns := Following(pick);
    VerdictIsLocal(cg, fns, init, n);
    FollowingExec(cg.g, pick, n, Input(cg.g, init, n, DoneData(AllVerdicts(cg, fns, init))));
  }

  /** A condition that finishes has chosen one of its branches. */
  lemma ChoiceIsBranch(g: Topology, fns: NodeFns, n: NodeId, d: Data)
    requires g.IsCond(n) && Exec(g, fns, n, d).Some?
    ensures HasBranch(g, n, Chosen(Exec(g, fns, n, d).value))
  {
    assert "branch"[0] != "output"[0];
  }

  ghost function PicksOf(cg: CompiledGraph, fns: NodeFns, init: Data): map<NodeId, string>
    requires cg.Valid()
  {
    map n | n in cg.g.nodes && Verdict(cg, fns, init, n).Done? :: Chosen(Verdict(cg, fns, init, n).data)
  }

  lemma RunPicks(cg: CompiledGraph, fns: NodeFns, init: Data, n: NodeId)
    requires cg.Valid() && n in cg.g.nodes && NoneFails(cg, fns, init)
    ensures PicksAt(cg, fns, init, PicksOf(cg, fns, init), n)
  {
    hide Verdict, Exec, Input, InEdges, Misroutes, HasBranch, Chosen;
    VerdictIsLocal(cg, fns, init, n);
    var d := Input(cg.g, init, n, DoneData(AllVerdicts(cg, fns, init)));
    if cg.g.IsCond(n) && Exec(cg.g, fns, n, d).Some? { ChoiceIsBranch(cg.g, fns, n, d); }
  }

  /** An error-free run with a stuck node gives picks that strand. */
  lemma UnsettledRunStrands(cg: CompiledGraph, fns: NodeFns, init: Data)
    requires cg.Valid() && NoneFails(cg, fns, init) && !AllSettle(cg, fns, init)
    ensures CanStrand(cg)
  {
    hide Verdict, PicksOf, FateOf, PicksAt, Misroutes;
    var pick := PicksOf(cg, fns, init);
    forall n | n in cg.g.nodes ensures PicksAt(cg, fns, init, pick, n) { RunPicks(cg, fns, init, n); }
    forall n | n in cg.g.nodes ensures FateOf(cg, pick, n) == FateIn(Verdict(cg, fns, init, n)) {
      FateIsVerdict(cg, fns, init, pick, n);
    }
    var n :| n in cg.g.nodes && Verdict(cg, fns, init, n) == Stuck;
    var b := StrandedHasMisrouter(cg, pick, n);
    assert StrandsUnder(cg, pick);
  }

  lemma FollowingFate(cg: CompiledGraph, pick: map<NodeId, string>, init: Data, n: NodeId)
    requires cg.Valid() && n in cg.g.nodes
    ensures FateOf(cg, pick, n) == FateIn(Verdict(cg, Following(pick), init, n))
  {
    hide Verdict, Following, FateOf, PicksAt, InEdges, CompiledGraph.Valid;
    forall m | m in cg.g.nodes ensures PicksAt(cg, Following(pick), init, pick, m) { FollowingPicks(cg, pick, init, m); }
    FateIsVerdict(cg, Following(pick), init, pick, n);
  }

  /** Picks that strand give an error-free run with a stuck node. */
  lemma StrandingRun(cg: CompiledGraph, pick: map<NodeId, string>, init: Data)
    requires cg.Valid() && StrandsUnder(cg, pick)
    ensures NoneFails(cg, Following(pick), init) && !AllSettle(cg, Following(pick), init)
  {
    hide Verdict, Following, FateOf, PicksAt, InEdges, Topology.IsCond, CompiledGraph.Valid;
    var fns := Following(pick);
    forall n | n in cg.g.nodes ensures FateOf(cg, pick, n) == FateIn(Verdict(cg, fns, init, n)) {
      FollowingFate(cg, pick, init, n);
    }
    var b :| b in cg.g.nodes && Misroutes(cg.g, b) && FateOf(cg, pick, b).Reached?;
    var e :| e in cg.g.edges && e.from == b && e.branch != "";
    EdgeTarget(cg, e);
    TargetStrands(cg, fns, init, e);
  }

  lemma EdgeTarget(cg: CompiledGraph, e: Edge)
    requires cg.Valid() && e in cg.g.edges
    ensures e.to in cg.g.nodes
  {
  }

  lemma MisrouterIsNode(cg: CompiledGraph) returns (b: NodeId)
    requires cg.Valid() && !LabelsOnlyOnConditions(cg.g)
    ensures b in cg.g.nodes && Misroutes(cg.g, b)
  {
    b :| Misroutes(cg.g, b);
  }

  lemma StrandingMisroutes(cg: CompiledGraph, pick: map<NodeId, string>)
    requires cg.Valid() && StrandsUnder(cg, pick)
    ensures !LabelsOnlyOnConditions(cg.g)
  {
  }

  /** Every error-free run settles every node if and only if no picks of branches reach a misrouting
      node without reaching a condition that has no such branch. If only conditions have labelled
      out-edges that is so; and it is so only then when every condition has an out-edge. */
  lemma AlwaysSettlesIff(cg: CompiledGraph, init: Data)
    requires cg.Valid()
    ensures (forall fns: NodeFns :: NoneFails(cg, fns, init) ==> AllSettle(cg, fns, init)) <==> !CanStrand(cg)
    ensures LabelsOnlyOnConditions(cg.g) ==> !CanStrand(cg)
    ensures ConditionsLead(cg.g) && !CanStrand(cg) ==> LabelsOnlyOnConditions(cg.g)
  {
    hide Misroutes, NoneFails, AllSettle, StrandsUnder;
    if CanStrand(cg) {
      var pick :| StrandsUnder(cg, pick);
      StrandingRun(cg, pick, init);
      StrandingMisroutes(cg, pick);
    } else {
      forall fns: NodeFns | NoneFails(cg, fns, init) ensures AllSettle(cg, fns, init) {
        if !AllSettle(cg, fns, init) { UnsettledRunStrands(cg, fns, init); }
      }
      if ConditionsLead(cg.g) && !LabelsOnlyOnConditions(cg.g) {
        var b := MisrouterIsNode(cg);
        MisroutingStrands(cg, b);
      }
    }
  }

  lemma {:induction false} NothingInto(es: seq<Edge>, n: NodeId)
    requires forall e :: e in es ==> e.to != n
    ensures InEdges(es, n) == []
  {
    if es != [] {
      var rest := es[..|es| - 1];
      assert es == rest + [es[|es| - 1]];
      NothingInto(rest, n);
    }
  }

  /** The smallest such graph: a plain node `a` with one edge to `b` labelled "go". `a` completes,
      its edge is charged to the branch counter of `b`, and `b` waits for ever. */
  lemma StrandedExample(init: Data)
    ensures var g := Topology(map["a" := Passthrough, "b" := Agent], [Edge("a", "b", "go")]);
            var cg := CompiledGraph(g, ["a", "b"]);
            var fns := NodeFns((n, d) => Some(d), (n, d) => None);
            cg.Valid() && Verdict(cg, fns, init, "a") == Done(init) && Verdict(cg, fns, init, "b") == Stuck
  {
    var e := Edge("a", "b", "go");
    var g := Topology(map["a" := Passthrough, "b" := Agent], [e]);
    var order := ["a", "b"];
    assert g.edges[0] == e && e in g.edges;
    assert order[0] == "a" && order[1] == "b" && "a" != "b";
    assert ToSet(order) == {"a", "b"} == g.nodes.Keys;
    var cg := CompiledGraph(g, order);
    assert cg.Valid();
    var fns := NodeFns((n, d) => Some(d), (n, d) => None);
    assert Misroutes(g, "a");
    NothingInto(g.edges, "a");
    assert Verdict(cg, fns, init, "a") == Done(init);
    TargetStrands(cg, fns, init, e);
  }

  /** In every reachable scheduler state of a graph without misrouting the counters are exactly the
      in-edges still outstanding, so none of them is ever negative. */
  lemma CountersExact(g: Topology, fns: NodeFns, init: Data, s: Sched, n: NodeId)
    requires Inv(g, fns, init, s) && n in g.nodes && LabelsOnlyOnConditions(g)
    ensures n in s.remaining && s.remaining[n] == |PlainIn(g, n) - s.byRemaining| >= 0
    ensures n in s.condPending && s.condPending[n] == |CondIn(g, n) - s.byCond| >= 0
    ensures n in s.condPassed && s.condPassed[n] == |CondIn(g, n) * s.passed| >= 0
    ensures forall e :: e in PlainIn(g, n) && e.from !in s.done + s.skipped ==> e !in s.byRemaining
    ensures forall e :: e in CondIn(g, n) && e.from !in s.done + s.skipped ==> e !in s.byCond
  {
    assert CountedAt(g, s, n);
    forall e | e in PlainIn(g, n) ensures e !in s.byCond && e !in s.passed {
      assert !Misroutes(g, e.from);
      assert e in Walked(s) ==> EdgeAccount(g, s, e);
    }
    assert PlainIn(g, n) * s.byCond == {};
    assert (PlainIn(g, n) + CondIn(g, n)) * s.passed == CondIn(g, n) * s.passed;
    forall e | e in Walked(s) ensures e.from in s.done + s.skipped {
      assert EdgeAccount(g, s, e);
    }
  }

  // ---------------------------------------------------------------- the state whenever the loop waits

  ghost function Unsettled(g: Topology, s: Sched, n: NodeId, cond: bool): set<Edge> {
    set e | e in g.edges && e.to == n && g.IsCond(e.from) == cond && e.from !in s.done + s.skipped
  }

  /** In-edges of `n` whose source finished and was charged to the wrong counter. */
  ghost function Misrouted(g: Topology, s: Sched, n: NodeId): set<Edge> {
    set e | e in g.edges && e.to == n && e.from in s.done && Misroutes(g, e.from)
  }

  /** In-edges of `n` whose source routes, finished and chose their label. */
  ghost function ChosenInto(g: Topology, s: Sched, n: NodeId): set<Edge> {
    set e | e in g.edges && e.to == n && e.from in s.done && e.from in s.nodeStates && g.Routes(e.from)
            && e.branch == Chosen(s.nodeStates[e.from])
  }

  /** How an edge into `n` has been walked once the loop waits, by what its source did. */
  lemma WalkedAs(g: Topology, fns: NodeFns, init: Data, s: Sched, e: Edge)
    requires Inv(g, fns, init, s) && Flushed(g, s) && e in g.edges
    ensures e in s.byRemaining <==> (e.from in s.done && !g.Routes(e.from)) || (e.from in s.skipped && !g.IsCond(e.from))
    ensures e in s.byCond <==> (e.from in s.done && g.Routes(e.from)) || (e.from in s.skipped && g.IsCond(e.from))
    ensures e in s.passed <==> e.from in s.done && e.from in s.nodeStates && g.Routes(e.from) && e.branch == Chosen(s.nodeStates[e.from])
  {
    hide Chosen, Topology.HasLabeledOut;
    assert e in Walked(s) <==> e.from in s.done + s.skipped;
    if e in Walked(s) { assert EdgeAccount(g, s, e); }
  }

  /** Whenever the loop waits for a result: `remaining` counts the in-edges of `n` from unsettled
      plain sources, `condPending` those from unsettled conditions, and `condPassed` those whose
      finished source chose their label. A finished misrouting source still counts as outstanding in
      the first and is missing from the second. */
  lemma CountersWhileWaiting(g: Topology, fns: NodeFns, init: Data, s: Sched, n: NodeId)
    requires Inv(g, fns, init, s) && n in g.nodes && Flushed(g, s)
    ensures n in s.remaining && s.remaining[n] == |Unsettled(g, s, n, false) + Misrouted(g, s, n)|
    ensures n in s.condPending && s.condPending[n] == |Unsettled(g, s, n, true)| - |Misrouted(g, s, n)|
    ensures n in s.condPassed && s.condPassed[n] == |ChosenInto(g, s, n)|
    ensures LabelsOnlyOnConditions(g) ==> Misrouted(g, s, n) == {}
    ensures LabelsOnlyOnConditions(g) ==> forall e :: e in ChosenInto(g, s, n) ==> g.IsCond(e.from)
  {
    assert CountedAt(g, s, n);
    OutstandingSets(g, fns, init, s, n);
    hide PlainIn, CondIn, Unsettled, ChosenInto;
    if LabelsOnlyOnConditions(g) { OnlyConditionsRoute(g, s, n); }
  }

  lemma OnlyConditionsRoute(g: Topology, s: Sched, n: NodeId)
    requires LabelsOnlyOnConditions(g)
    ensures Misrouted(g, s, n) == {} && forall e :: e in ChosenInto(g, s, n) ==> g.IsCond(e.from)
  {
    hide Topology.HasLabeledOut, Chosen;
    forall e | e in ChosenInto(g, s, n) ensures g.IsCond(e.from) { assert !Misroutes(g, e.from); }
  }

  lemma OutstandingSets(g: Topology, fns: NodeFns, init: Data, s: Sched, n: NodeId)
    requires Inv(g, fns, init, s) && n in g.nodes && Flushed(g, s)
    ensures PlainIn(g, n) - s.byRemaining == Unsettled(g, s, n, false) + Misrouted(g, s, n)
    ensures CondIn(g, n) - s.byCond == Unsettled(g, s, n, true)
    ensures PlainIn(g, n) * s.byCond == Misrouted(g, s, n)
    ensures (PlainIn(g, n) + CondIn(g, n)) * s.passed == ChosenInto(g, s, n)
  {
    forall e | e in g.edges && e.to == n
      ensures e in PlainIn(g, n) - s.byRemaining <==> e in Unsettled(g, s, n, false) + Misrouted(g, s, n)
      ensures e in CondIn(g, n) - s.byCond <==> e in Unsettled(g, s, n, true)
      ensures e in PlainIn(g, n) * s.byCond <==> e in Misrouted(g, s, n)
      ensures e in (PlainIn(g, n) + CondIn(g, n)) * s.passed <==> e in ChosenInto(g, s, n)
    {
      hide Flushed, Inv, Chosen, Topology.HasLabeledOut;
      WalkedAs(g, fns, init, s, e);
      DoneNotSkipped(g, fns, init, s);
    }
    hide Flushed, Inv, Chosen, Topology.HasLabeledOut, Misroutes;
  }

  lemma DoneNotSkipped(g: Topology, fns: NodeFns, init: Data, s: Sched)
    requires Inv(g, fns, init, s)
    ensures s.done !! s.skipped
  {
  }

  /** The condition under which `n` is skipped, read off what its predecessors did. */
  ghost predicate OnlyUnchosen(g: Topology, s: Sched, n: NodeId) {
    g.In(n) != [] && forall e :: e in g.In(n) ==>
      && g.IsCond(e.from)
      && (e.from in s.skipped || (e.from in s.done && e.from in s.nodeStates && Chosen(s.nodeStates[e.from]) != e.branch))
  }

  /** Whenever the loop waits, the skipped nodes are exactly those with in-edges from conditions only,
      each of which was itself skipped or finished with another label chosen. */
  lemma SkippedExactly(g: Topology, fns: NodeFns, init: Data, s: Sched, n: NodeId)
    requires Inv(g, fns, init, s) && AtRest(g, s, {}) && Flushed(g, s) && n in g.nodes
    ensures n in s.skipped <==> OnlyUnchosen(g, s, n)
  {
    hide Chosen, Topology.HasLabeledOut;
    InIsPlainOrCond(g, n);
    forall e | e in g.In(n) ensures e in g.edges && e.to == n && (e in s.byCond ==> e in Walked(s)) {
      WalkedAs(g, fns, init, s, e);
    }
    if OnlyUnchosen(g, s, n) {
      forall e | e in PlainIn(g, n) + CondIn(g, n) ensures g.IsCond(e.from) && e in s.byCond && e !in s.passed {
        assert e in ToSet(g.In(n));
        WalkedAs(g, fns, init, s, e);
      }
      assert Ready(g, s, n) && Unreached(g, s, n);
      assert !Waiting(g, s, n);
      assert LeftWaiting(g, fns, init, s, n);
    } else if n in s.skipped {
      assert LeftWaiting(g, fns, init, s, n);
      forall e | e in g.In(n)
        ensures g.IsCond(e.from) && (e.from in s.skipped || (e.from in s.done && e.from in s.nodeStates && Chosen(s.nodeStates[e.from]) != e.branch))
      {
        SourcesSettled(g, fns, init, s, n, e);
        WalkedAs(g, fns, init, s, e);
        assert e in ToSet(g.In(n)) && e !in PlainIn(g, n) && e !in CondIn(g, n) * s.passed;
      }
    }
  }

  /** When nothing runs any more and only conditions have labelled out-edges, no node is left waiting. */
  lemma {:induction false} NobodyWaits(cg: CompiledGraph, fns: NodeFns, init: Data, s: Sched, n: NodeId)
    requires cg.Valid() && Inv(cg.g, fns, init, s) && AtRest(cg.g, s, {}) && Flushed(cg.g, s) && s.inflight == map[]
    requires LabelsOnlyOnConditions(cg.g) && n in cg.g.nodes
    ensures n in s.done + s.skipped
    decreases Pos(cg.topoOrder, n)
  {
    hide Chosen, Topology.HasLabeledOut;
    var g := cg.g;
    forall e | e in PlainIn(g, n) + CondIn(g, n)
      ensures if g.IsCond(e.from) then e in s.byCond else e in s.byRemaining
    {
      NobodyWaits(cg, fns, init, s, e.from);
      WalkedAs(g, fns, init, s, e);
      assert !Misroutes(g, e.from);
    }
    assert Ready(g, s, n);
  }

  /** At the end of such a run every node has been completed or skipped, and none both. */
  lemma EveryNodeSettles(cg: CompiledGraph, fns: NodeFns, init: Data, s: Sched)
    requires cg.Valid() && Inv(cg.g, fns, init, s) && AtRest(cg.g, s, {}) && Flushed(cg.g, s) && s.inflight == map[]
    requires LabelsOnlyOnConditions(cg.g)
    ensures s.done !! s.skipped && s.done + s.skipped == cg.g.nodes.Keys
  {
    forall n | n in cg.g.nodes ensures n in s.done + s.skipped {
      NobodyWaits(cg, fns, init, s, n);
    }
  }

  /** Nothing starts, completes or is skipped before all its predecessors have settled. */
  lemma StartsAfterPredecessors(g: Topology, fns: NodeFns, init: Data, s: Sched, n: NodeId)
    requires Inv(g, fns, init, s) && n in g.nodes && !Waiting(g, s, n)
    ensures forall e :: e in g.edges && e.to == n ==> e.from in s.done + s.skipped
  {
    assert LeftWaiting(g, fns, init, s, n);
    forall e | e in g.edges && e.to == n ensures e.from in s.done + s.skipped {
      assert e in g.In(n);
      SourcesSettled(g, fns, init, s, n, e);
    }
  }
}

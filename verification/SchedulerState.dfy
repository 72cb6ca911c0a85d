/** The scheduler's state as a value, the invariant every reachable state satisfies (also in the
    middle of the skip cascade), and the lemma for each elementary transition. */
module SchedulerState {
  import opened Graphs
  import opened GraphStates
  import opened Options
  import opened Sequences
  import opened Verdicts

  /** The counters and sets of `graphScheduler`, with the bookkeeping the proof needs: the edges
      walked so far, split by the counter that was decremented, and those that were selected. */
  datatype Sched = Sched(
    remaining: map<NodeId, int>,
    condPending: map<NodeId, int>,
    condPassed: map<NodeId, int>,
    skipped: set<NodeId>,
    nodeStates: map<NodeId, Data>,
    inflight: map<NodeId, Data>,
    done: set<NodeId>,
    byRemaining: set<Edge>,
    byCond: set<Edge>,
    passed: set<Edge>)

  ghost function Walked(s: Sched): set<Edge> { s.byRemaining + s.byCond }

  ghost function PlainIn(g: Topology, n: NodeId): set<Edge> {
    set e | e in g.edges && e.to == n && !g.IsCond(e.from)
  }

  ghost function CondIn(g: Topology, n: NodeId): set<Edge> {
    set e | e in g.edges && e.to == n && g.IsCond(e.from)
  }

  ghost function OutOf(g: Topology, ns: set<NodeId>): set<Edge> {
    set e | e in g.edges && e.from in ns
  }

  ghost predicate Waiting(g: Topology, s: Sched, n: NodeId) {
    n in g.nodes && n !in s.inflight && n !in s.done && n !in s.skipped
  }

  ghost function WaitingSet(g: Topology, s: Sched): set<NodeId> {
    set n | n in g.nodes && Waiting(g, s, n)
  }

  /** Every in-edge of `n` has been walked through the counter it was filed under. */
  ghost predicate Ready(g: Topology, s: Sched, n: NodeId) {
    PlainIn(g, n) <= s.byRemaining && CondIn(g, n) <= s.byCond
  }

  /** All in-edges come from conditions and none was selected. */
  ghost predicate Unreached(g: Topology, s: Sched, n: NodeId) {
    g.In(n) != [] && PlainIn(g, n) == {} && CondIn(g, n) * s.passed == {}
  }

  // ---------------------------------------------------------------- the invariant

  /** What each counter counts. A plain edge walked through the branch counters (its source
      misroutes) leaves `remaining` too high for ever and pulls `condPending` below the truth. */
  ghost predicate CountedAt(g: Topology, s: Sched, n: NodeId) {
    && n in s.remaining && s.remaining[n] == |PlainIn(g, n) - s.byRemaining|
    && n in s.condPending && s.condPending[n] == |CondIn(g, n) - s.byCond| - |PlainIn(g, n) * s.byCond|
    && n in s.condPassed && s.condPassed[n] == |(PlainIn(g, n) + CondIn(g, n)) * s.passed|
  }

  ghost predicate Counted(g: Topology, s: Sched) {
    forall n {:trigger CountedAt(g, s, n)} :: n in g.nodes ==> CountedAt(g, s, n)
  }

  /** Which edges have been walked, and how. */
  ghost predicate EdgeAccount(g: Topology, s: Sched, e: Edge) {
    && e in g.edges
    && (e in s.byRemaining ==> e !in s.byCond && e !in s.passed)
    && if e.from in s.done then
         && e.from in s.nodeStates
         && (e in s.byCond <==> g.Routes(e.from))
         && (e in s.passed <==> g.Routes(e.from) && e.branch == Chosen(s.nodeStates[e.from]))
       else
         && e.from in s.skipped && (e in s.byCond <==> g.IsCond(e.from)) && e !in s.passed
  }

  ghost predicate Accounted(g: Topology, s: Sched) {
    s.passed <= s.byCond && forall e {:trigger EdgeAccount(g, s, e)} :: e in Walked(s) ==> EdgeAccount(g, s, e)
  }

  ghost predicate Statuses(g: Topology, s: Sched) {
    && s.done <= g.nodes.Keys && s.skipped <= g.nodes.Keys && s.inflight.Keys <= g.nodes.Keys
    && s.done !! s.skipped && s.done !! s.inflight.Keys && s.skipped !! s.inflight.Keys
    && s.done <= s.nodeStates.Keys
    && forall n :: n in s.nodeStates && n !in s.done ==> n in s.inflight && g.In(n) == []
  }

  /** A node that has left the waiting state had all its in-edges walked, was skipped exactly when
      it was unreached, and started from the join of its predecessors' data. */
  ghost predicate LeftWaiting(g: Topology, fns: NodeFns, init: Data, s: Sched, n: NodeId) {
    && Ready(g, s, n)
    && (n in s.skipped <==> Unreached(g, s, n))
    && (n in s.inflight ==> s.inflight[n] == Input(g, init, n, s.nodeStates))
    && (n in s.done ==> n in s.nodeStates && Exec(g, fns, n, Input(g, init, n, s.nodeStates)) == Some(s.nodeStates[n]))
  }

  ghost predicate Inv(g: Topology, fns: NodeFns, init: Data, s: Sched) {
    g.WellFormed() && Counted(g, s) && Accounted(g, s) && Statuses(g, s) && AllLeft(g, fns, init, s)
  }

  ghost predicate AllLeft(g: Topology, fns: NodeFns, init: Data, s: Sched) {
    forall n {:trigger LeftWaiting(g, fns, init, s, n)} ::
      n in g.nodes && !Waiting(g, s, n) ==> LeftWaiting(g, fns, init, s, n)
  }

  /** No node is ready and still waiting, except perhaps those of `except`. */
  ghost predicate AtRest(g: Topology, s: Sched, except: set<NodeId>) {
    forall n {:trigger Ready(g, s, n)} :: n in g.nodes && n !in except && Waiting(g, s, n) ==> !Ready(g, s, n)
  }

  /** What a cascade may change: it only skips or starts waiting nodes, and it walks exactly the
      out-edges of the nodes it skips, on top of `extra`. */
  ghost predicate Grows(g: Topology, s: Sched, t: Sched, extra: set<Edge>) {
    && t.done == s.done && t.nodeStates == s.nodeStates
    && s.skipped <= t.skipped
    && s.inflight.Keys <= t.inflight.Keys
    && WaitingSet(g, t) <= WaitingSet(g, s)
    && t.skipped - s.skipped <= WaitingSet(g, s)
    && Walked(t) == Walked(s) + extra + OutOf(g, t.skipped - s.skipped)
  }

  // ---------------------------------------------------------------- reading the counters

  lemma CardZero<T>(s: set<T>)
    ensures |s| == 0 <==> s == {}
  {
  }

  /** The test at the head of `tryStart` and `skip` decides exactly readiness. */
  lemma CountersDecideReady(g: Topology, s: Sched, n: NodeId)
    requires Accounted(g, s) && CountedAt(g, s, n)
    ensures Ready(g, s, n) <==> s.remaining[n] <= 0 && s.condPending[n] <= 0
  {
    var p, c := PlainIn(g, n), CondIn(g, n);
    hide PlainIn, CondIn, InEdges;
    CardZero(p - s.byRemaining);
    CardZero(c - s.byCond);
    if s.remaining[n] <= 0 {
      forall e | e in p ensures e !in s.byCond {
        assert e !in p - s.byRemaining;
        assert EdgeAccount(g, s, e);
      }
      assert p * s.byCond == {};
    }
  }

  lemma InParts(g: Topology, n: NodeId)
    requires g.WellFormed()
    ensures PlainIn(g, n) !! CondIn(g, n) && |g.In(n)| == |PlainIn(g, n)| + |CondIn(g, n)|
  {
    assert ToSet(g.In(n)) == PlainIn(g, n) + CondIn(g, n);
    DistinctCard(g.In(n));
  }

  /** The skip test: every in-edge is counted as a condition edge and none has passed. */
  lemma CountersDecideUnreached(g: Topology, s: Sched, n: NodeId)
    requires g.WellFormed() && CountedAt(g, s, n)
    ensures Unreached(g, s, n) <==> s.condPassed[n] == 0 && |g.In(n)| == |CondIn(g, n)| && |g.In(n)| > 0
  {
    var p, c := PlainIn(g, n), CondIn(g, n);
    InParts(g, n);
    hide PlainIn, CondIn, Topology.WellFormed;
    CardZero((p + c) * s.passed);
    CardZero(p);
    if p == {} { assert (p + c) * s.passed == c * s.passed; }
  }

  /** Both, for a reachable state. */
  lemma CountersDecide(g: Topology, fns: NodeFns, init: Data, s: Sched, n: NodeId)
    requires Inv(g, fns, init, s) && n in g.nodes
    ensures n in s.remaining && n in s.condPending && n in s.condPassed
    ensures Ready(g, s, n) <==> s.remaining[n] <= 0 && s.condPending[n] <= 0
    ensures Unreached(g, s, n) <==> s.condPassed[n] == 0 && |g.In(n)| == |CondIn(g, n)| && |g.In(n)| > 0
  {
    assert CountedAt(g, s, n);
    CountersDecideReady(g, s, n);
    CountersDecideUnreached(g, s, n);
  }

  // ---------------------------------------------------------------- elementary transitions

  datatype Route = Plain | Unselected | Selected

  ghost function Bump(m: map<NodeId, int>, n: NodeId, d: int): map<NodeId, int> {
    if n in m then m[n := m[n] + d] else m
  }

  /** Walking one edge: the counter updates of `skip` and `complete`. */
  ghost function Walk(s: Sched, e: Edge, r: Route): Sched {
    match r
    case Plain => s.(remaining := Bump(s.remaining, e.to, -1), byRemaining := s.byRemaining + {e})
    case Unselected => s.(condPending := Bump(s.condPending, e.to, -1), byCond := s.byCond + {e})
    case Selected => s.(condPending := Bump(s.condPending, e.to, -1), condPassed := Bump(s.condPassed, e.to, 1),
                        byCond := s.byCond + {e}, passed := s.passed + {e})
  }

  /** The route `skip` and `complete` choose for an out-edge of a settled node. */
  ghost predicate RightRoute(g: Topology, s: Sched, e: Edge, r: Route) {
    if e.from in s.done then
      && e.from in s.nodeStates
      && (r.Plain? <==> !g.Routes(e.from))
      && (r.Selected? <==> g.Routes(e.from) && e.branch == Chosen(s.nodeStates[e.from]))
    else
      e.from in s.skipped && (r.Plain? <==> !g.IsCond(e.from)) && !r.Selected?
  }

  lemma AddToRemoved<T>(a: set<T>, b: set<T>, x: T)
    ensures |a - (b + {x})| == |a - b| - (if x in a && x !in b then 1 else 0)
  {
    if x in a && x !in b {
      assert a - (b + {x}) == (a - b) - {x};
    } else {
      assert a - (b + {x}) == a - b;
    }
  }

  lemma AddToKept<T>(a: set<T>, b: set<T>, x: T)
    ensures |a * (b + {x})| == |a * b| + (if x in a && x !in b then 1 else 0)
  {
    if x in a && x !in b {
      assert a * (b + {x}) == a * b + {x};
    } else {
      assert a * (b + {x}) == a * b;
    }
  }

  lemma InOrNot(g: Topology, e: Edge, n: NodeId)
    requires g.WellFormed() && e in g.edges && n in g.nodes
    ensures e in PlainIn(g, n) <==> e.to == n && !g.IsCond(e.from)
    ensures e in CondIn(g, n) <==> e.to == n && g.IsCond(e.from)
    ensures PlainIn(g, n) !! CondIn(g, n)
  {
  }

  lemma WalkCounts(g: Topology, s: Sched, e: Edge, r: Route, n: NodeId)
    requires g.WellFormed() && e in g.edges && n in g.nodes && CountedAt(g, s, n) && CountedAt(g, s, e.to)
    requires e !in Walked(s) && s.passed <= s.byCond && (r.Plain? ==> !g.IsCond(e.from))
    ensures CountedAt(g, Walk(s, e, r), n)
  {
    InOrNot(g, e, n);
    hide PlainIn, CondIn, Topology.IsCond, Topology.WellFormed;
    if r.Plain? { WalkPlainCounts(g, s, e, n); } else { WalkCondCounts(g, s, e, r, n); }
  }

  lemma WalkPlainCounts(g: Topology, s: Sched, e: Edge, n: NodeId)
    requires CountedAt(g, s, n) && e.to in s.remaining && e !in Walked(s)
    requires e in PlainIn(g, n) <==> e.to == n
    ensures CountedAt(g, Walk(s, e, Plain), n)
  {
    hide PlainIn, CondIn;
    AddToRemoved(PlainIn(g, n), s.byRemaining, e);
  }

  lemma WalkCondCounts(g: Topology, s: Sched, e: Edge, r: Route, n: NodeId)
    requires CountedAt(g, s, n) && e.to in s.condPending && e.to in s.condPassed && e !in Walked(s) && e !in s.passed
    requires !r.Plain? && PlainIn(g, n) !! CondIn(g, n) && (e in PlainIn(g, n) || e in CondIn(g, n) <==> e.to == n)
    ensures CountedAt(g, Walk(s, e, r), n)
  {
    var p, c := PlainIn(g, n), CondIn(g, n);
    hide PlainIn, CondIn;
    AddToRemoved(c, s.byCond, e);
    AddToKept(p, s.byCond, e);
    AddToKept(p + c, s.passed, e);
  }

  /** The target of an edge not walked yet has not left the waiting state. */
  lemma TargetStillWaiting(g: Topology, fns: NodeFns, init: Data, s: Sched, e: Edge)
    requires g.WellFormed() && AllLeft(g, fns, init, s) && e in g.edges && e !in Walked(s)
    ensures Waiting(g, s, e.to)
  {
    assert e in PlainIn(g, e.to) || e in CondIn(g, e.to);
    assert Waiting(g, s, e.to) || LeftWaiting(g, fns, init, s, e.to);
  }

  lemma WalkCountsAll(g: Topology, s: Sched, e: Edge, r: Route)
    requires g.WellFormed() && e in g.edges && Counted(g, s)
    requires e !in Walked(s) && s.passed <= s.byCond && (r.Plain? ==> !g.IsCond(e.from))
    ensures Counted(g, Walk(s, e, r))
  {
    forall n | n in g.nodes ensures CountedAt(g, Walk(s, e, r), n) {
      assert CountedAt(g, s, n) && CountedAt(g, s, e.to);
      WalkCounts(g, s, e, r, n);
    }
  }

  lemma WalkAccounts(g: Topology, s: Sched, e: Edge, r: Route)
    requires Accounted(g, s) && e in g.edges && e !in Walked(s) && RightRoute(g, s, e, r)
    ensures Accounted(g, Walk(s, e, r))
  {
    var t := Walk(s, e, r);
    forall x | x in Walked(t) ensures EdgeAccount(g, t, x) {
      if x != e { assert EdgeAccount(g, s, x); }
    }
  }

  /** Walking an edge leaves every node that has already started or settled as it was. */
  lemma WalkLeaves(g: Topology, fns: NodeFns, init: Data, s: Sched, e: Edge, r: Route)
    requires AllLeft(g, fns, init, s) && Waiting(g, s, e.to)
    ensures AllLeft(g, fns, init, Walk(s, e, r))
  {
    var t := Walk(s, e, r);
    forall n | n in g.nodes && !Waiting(g, t, n) ensures LeftWaiting(g, fns, init, t, n) {
      assert LeftWaiting(g, fns, init, s, n);
      assert CondIn(g, n) * t.passed == CondIn(g, n) * s.passed;
    }
  }

  lemma WalkKeepsRest(g: Topology, s: Sched, e: Edge, r: Route)
    requires AtRest(g, s, {}) && e in g.edges
    ensures AtRest(g, Walk(s, e, r), {e.to})
  {
    var t := Walk(s, e, r);
    forall n | n in g.nodes && n != e.to && Waiting(g, t, n) ensures !Ready(g, t, n) {
      assert !Ready(g, s, n);
      assert e !in PlainIn(g, n) && e !in CondIn(g, n);
    }
  }

  lemma WalkKeepsInv(g: Topology, fns: NodeFns, init: Data, s: Sched, e: Edge, r: Route)
    requires Inv(g, fns, init, s) && e in g.edges && e !in Walked(s) && RightRoute(g, s, e, r)
    requires AtRest(g, s, {})
    ensures Inv(g, fns, init, Walk(s, e, r))
    ensures Waiting(g, Walk(s, e, r), e.to) && AtRest(g, Walk(s, e, r), {e.to})
  {
    TargetStillWaiting(g, fns, init, s, e);
    WalkCountsAll(g, s, e, r);
    WalkAccounts(g, s, e, r);
    WalkLeaves(g, fns, init, s, e, r);
    WalkKeepsRest(g, s, e, r);
  }

  lemma RestWithout(g: Topology, s: Sched, n: NodeId)
    requires AtRest(g, s, {n}) && (Waiting(g, s, n) ==> !Ready(g, s, n))
    ensures AtRest(g, s, {})
  {
    forall m | m in g.nodes && Waiting(g, s, m) ensures !Ready(g, s, m) {
    }
  }

  /** Two states with the same counters and the same walked edges. */
  ghost predicate SameCounts(s: Sched, t: Sched) {
    && s.remaining == t.remaining && s.condPending == t.condPending && s.condPassed == t.condPassed
    && s.byRemaining == t.byRemaining && s.byCond == t.byCond && s.passed == t.passed
  }

  lemma CountedFrame(g: Topology, s: Sched, t: Sched)
    requires Counted(g, s) && SameCounts(s, t)
    ensures Counted(g, t)
  {
    forall n | n in g.nodes ensures CountedAt(g, t, n) {
      assert CountedAt(g, s, n);
    }
  }

  lemma RestFrame(g: Topology, s: Sched, t: Sched, n: NodeId)
    requires AtRest(g, s, {n}) && SameCounts(s, t) && !Waiting(g, t, n)
    requires forall m :: Waiting(g, t, m) ==> Waiting(g, s, m)
    ensures AtRest(g, t, {})
  {
    forall m | m in g.nodes && Waiting(g, t, m) ensures !Ready(g, t, m) {
      assert !Ready(g, s, m);
    }
  }

  lemma OutOfUnsettledUnwalked(g: Topology, s: Sched, n: NodeId)
    requires Accounted(g, s) && n !in s.done && n !in s.skipped
    ensures forall e :: e in OutOf(g, {n}) ==> e !in Walked(s)
  {
    forall e | e in Walked(s) ensures e.from != n {
      assert EdgeAccount(g, s, e);
    }
  }

  ghost function Skip(s: Sched, n: NodeId): Sched { s.(skipped := s.skipped + {n}) }

  /** `skip` marks a ready, unreached node. */
  lemma SkipKeepsInv(g: Topology, fns: NodeFns, init: Data, s: Sched, n: NodeId)
    requires Inv(g, fns, init, s) && AtRest(g, s, {n})
    requires Waiting(g, s, n) && Ready(g, s, n) && Unreached(g, s, n)
    ensures Inv(g, fns, init, Skip(s, n)) && AtRest(g, Skip(s, n), {})
    ensures forall e :: e in OutOf(g, {n}) ==> e !in Walked(s)
  {
    var t := Skip(s, n);
    OutOfUnsettledUnwalked(g, s, n);
    CountedFrame(g, s, t);
    RestFrame(g, s, t, n);
    assert Accounted(g, t) by {
      forall e | e in Walked(t) ensures EdgeAccount(g, t, e) {
        assert EdgeAccount(g, s, e);
      }
    }
    assert AllLeft(g, fns, init, t) by {
      forall m | m in g.nodes && !Waiting(g, t, m) ensures LeftWaiting(g, fns, init, t, m) {
        if m != n { assert LeftWaiting(g, fns, init, s, m); }
      }
    }
  }

  ghost function Launch(g: Topology, init: Data, s: Sched, n: NodeId): Sched {
    s.(inflight := s.inflight[n := Input(g, init, n, s.nodeStates)])
  }

  /** `tryStart` launches a ready node that is not unreached, on the join of its predecessors. */
  lemma LaunchKeepsInv(g: Topology, fns: NodeFns, init: Data, s: Sched, n: NodeId)
    requires Inv(g, fns, init, s) && AtRest(g, s, {n})
    requires Waiting(g, s, n) && Ready(g, s, n) && !Unreached(g, s, n)
    ensures Inv(g, fns, init, Launch(g, init, s, n)) && AtRest(g, Launch(g, init, s, n), {})
  {
    var t := Launch(g, init, s, n);
    CountedFrame(g, s, t);
    RestFrame(g, s, t, n);
    assert Accounted(g, t) by {
      forall e | e in Walked(t) ensures EdgeAccount(g, t, e) {
        assert EdgeAccount(g, s, e);
      }
    }
    assert AllLeft(g, fns, init, t) by {
      forall m | m in g.nodes && !Waiting(g, t, m) ensures LeftWaiting(g, fns, init, t, m) {
        if m != n { assert LeftWaiting(g, fns, init, s, m); }
      }
    }
  }

  /** The sources of a node that has left the waiting state have all settled. */
  lemma SourcesSettled(g: Topology, fns: NodeFns, init: Data, s: Sched, n: NodeId, e: Edge)
    requires Accounted(g, s) && LeftWaiting(g, fns, init, s, n) && e in g.In(n)
    ensures e in Walked(s) && e.from in s.done + s.skipped
  {
    assert e in PlainIn(g, n) || e in CondIn(g, n);
    assert EdgeAccount(g, s, e);
  }

  ghost function Finish(s: Sched, n: NodeId, d: Data): Sched {
    s.(inflight := s.inflight - {n}, done := s.done + {n}, nodeStates := s.nodeStates[n := d])
  }

  lemma FinishLeaves(g: Topology, fns: NodeFns, init: Data, s: Sched, n: NodeId, d: Data, m: NodeId)
    requires Accounted(g, s) && LeftWaiting(g, fns, init, s, m) && n in s.inflight && n !in s.done && n !in s.skipped
    requires n == m ==> Exec(g, fns, n, s.inflight[n]) == Some(d)
    requires m !in s.skipped || m !in s.inflight
    ensures LeftWaiting(g, fns, init, Finish(s, n, d), m)
  {
    var t := Finish(s, n, d);
    forall e | e in g.In(m) ensures e.from != n {
      SourcesSettled(g, fns, init, s, m, e);
    }
    JoinFrame(g.In(m), s.nodeStates, t.nodeStates);
  }

  /** The result of a running node arrives. */
  lemma FinishKeepsInv(g: Topology, fns: NodeFns, init: Data, s: Sched, n: NodeId, d: Data)
    requires Inv(g, fns, init, s) && AtRest(g, s, {})
    requires n in s.inflight && Exec(g, fns, n, s.inflight[n]) == Some(d)
    ensures Inv(g, fns, init, Finish(s, n, d)) && AtRest(g, Finish(s, n, d), {})
    ensures forall e :: e in OutOf(g, {n}) ==> e !in Walked(s)
  {
    var t := Finish(s, n, d);
    OutOfUnsettledUnwalked(g, s, n);
    CountedFrame(g, s, t);
    RestFrame(g, s, t, n);
    assert Accounted(g, t) by {
      forall e | e in Walked(t) ensures EdgeAccount(g, t, e) {
        assert EdgeAccount(g, s, e);
      }
    }
    assert AllLeft(g, fns, init, t) by {
      forall m | m in g.nodes && !Waiting(g, t, m) ensures LeftWaiting(g, fns, init, t, m) {
        assert LeftWaiting(g, fns, init, s, m);
        FinishLeaves(g, fns, init, s, n, d, m);
      }
    }
  }

  ghost function LaunchEntry(s: Sched, n: NodeId, init: Data): Sched {
    s.(inflight := s.inflight[n := init], nodeStates := s.nodeStates[n := init])
  }

  /** `startEntries` launches a node without in-edges on the run's input. */
  lemma EntryKeepsInv(g: Topology, fns: NodeFns, init: Data, s: Sched, n: NodeId, todo: set<NodeId>)
    requires Inv(g, fns, init, s) && AtRest(g, s, todo)
    requires Waiting(g, s, n) && g.In(n) == []
    ensures Inv(g, fns, init, LaunchEntry(s, n, init)) && AtRest(g, LaunchEntry(s, n, init), todo - {n})
  {
    var t := LaunchEntry(s, n, init);
    CountedFrame(g, s, t);
    forall m | m in g.nodes && m !in todo - {n} && Waiting(g, t, m) ensures !Ready(g, t, m) {
      assert !Ready(g, s, m);
    }
    OutOfUnsettledUnwalked(g, s, n);
    assert Accounted(g, t) by {
      forall e | e in Walked(t) ensures EdgeAccount(g, t, e) {
        assert EdgeAccount(g, s, e);
      }
    }
    assert AllLeft(g, fns, init, t) by {
      forall m | m in g.nodes && !Waiting(g, t, m) ensures LeftWaiting(g, fns, init, t, m) {
        if m == n {
          assert forall e :: e in g.edges && e.to == n ==> e in g.In(n);
        } else {
          assert LeftWaiting(g, fns, init, s, m);
          EntryLeaves(g, fns, init, s, n, m);
        }
      }
    }
  }

  lemma EntryLeaves(g: Topology, fns: NodeFns, init: Data, s: Sched, n: NodeId, m: NodeId)
    requires Accounted(g, s) && LeftWaiting(g, fns, init, s, m) && Waiting(g, s, n) && m != n
    ensures LeftWaiting(g, fns, init, LaunchEntry(s, n, init), m)
  {
    var t := LaunchEntry(s, n, init);
    forall e | e in g.In(m) ensures e.from != n {
      SourcesSettled(g, fns, init, s, m, e);
    }
    JoinFrame(g.In(m), s.nodeStates, t.nodeStates);
  }

  // ---------------------------------------------------------------- cascades compose

  lemma GrowsTrans(g: Topology, s: Sched, t: Sched, u: Sched, x: set<Edge>, y: set<Edge>)
    requires Grows(g, s, t, x) && Grows(g, t, u, y)
    ensures Grows(g, s, u, x + y)
  {
    assert u.skipped - s.skipped == (t.skipped - s.skipped) + (u.skipped - t.skipped);
    assert OutOf(g, u.skipped - s.skipped) == OutOf(g, t.skipped - s.skipped) + OutOf(g, u.skipped - t.skipped);
  }

  lemma GrowsWalk(g: Topology, s: Sched, e: Edge, r: Route)
    ensures Grows(g, s, Walk(s, e, r), {e})
  {
    var t := Walk(s, e, r);
    assert OutOf(g, t.skipped - s.skipped) == {};
  }

  lemma GrowsNothing(g: Topology, s: Sched)
    ensures Grows(g, s, s, {})
  {
    assert OutOf(g, s.skipped - s.skipped) == {};
  }

  /** Marking `n` skipped and then walking all its out-edges is a cascade of its own. */
  lemma GrowsSkip(g: Topology, s: Sched, n: NodeId, t: Sched)
    requires Waiting(g, s, n) && Grows(g, Skip(s, n), t, OutOf(g, {n}))
    ensures Grows(g, s, t, {})
  {
    var u := Skip(s, n);
    assert t.skipped - s.skipped == {n} + (t.skipped - u.skipped);
    assert OutOf(g, t.skipped - s.skipped) == OutOf(g, {n}) + OutOf(g, t.skipped - u.skipped);
  }

  lemma GrowsLaunch(g: Topology, init: Data, s: Sched, n: NodeId)
    ensures Grows(g, s, Launch(g, init, s, n), {})
  {
    var t := Launch(g, init, s, n);
    assert OutOf(g, t.skipped - s.skipped) == {};
  }

  // ---------------------------------------------------------------- what every reachable state has settled on

  /** Every out-edge of every settled node has been walked: true whenever the run loop waits. */
  ghost predicate Flushed(g: Topology, s: Sched) {
    Walked(s) == OutOf(g, s.done + s.skipped)
  }

  lemma InIsPlainOrCond(g: Topology, n: NodeId)
    requires g.WellFormed()
    ensures ToSet(g.In(n)) == PlainIn(g, n) + CondIn(g, n)
  {
  }

  /** The verdicts on the sources of `n` agree with the state. */
  ghost predicate SourcesAgree(g: Topology, s: Sched, n: NodeId, out: map<NodeId, Outcome>) {
    forall e :: e in g.In(n) ==>
      && e.from in out
      && (e.from in s.done ==> e.from in s.nodeStates && out[e.from] == Done(s.nodeStates[e.from]))
      && (e.from in s.skipped ==> out[e.from] == Skipped)
  }

  lemma EdgeMatches(g: Topology, fns: NodeFns, init: Data, s: Sched, n: NodeId, out: map<NodeId, Outcome>, e: Edge)
    requires Accounted(g, s) && LeftWaiting(g, fns, init, s, n)
    requires SourcesAgree(g, s, n, out) && e in g.In(n)
    ensures !Blocks(g, out, e) && e.from in s.done + s.skipped
    ensures g.IsCond(e.from) ==> (Selects(out, e) <==> e in s.passed)
  {
    SourcesSettled(g, fns, init, s, n, e);
    assert EdgeAccount(g, s, e);
    assert e in PlainIn(g, n) || e in CondIn(g, n);
  }

  lemma UnreachedMatches(g: Topology, fns: NodeFns, init: Data, s: Sched, n: NodeId, out: map<NodeId, Outcome>)
    requires g.WellFormed() && Accounted(g, s) && LeftWaiting(g, fns, init, s, n)
    requires SourcesAgree(g, s, n, out)
    ensures Unreached(g, s, n) <==>
              g.In(n) != [] && forall e :: e in g.In(n) ==> g.IsCond(e.from) && !Selects(out, e)
  {
    InIsPlainOrCond(g, n);
    forall e | e in g.In(n) ensures g.IsCond(e.from) ==> (Selects(out, e) <==> e in s.passed) {
      EdgeMatches(g, fns, init, s, n, out, e);
    }
    if Unreached(g, s, n) {
      forall e | e in g.In(n) ensures g.IsCond(e.from) && !Selects(out, e) {
        assert e in ToSet(g.In(n)) && e !in PlainIn(g, n);
        assert e !in CondIn(g, n) * s.passed;
      }
    }
  }

  /** In any reachable state, a node that has left the waiting state is where its verdict says:
      skipped, or running towards, or holding, the result of executing it on its verdict's input. */
  lemma LeftMatchesLocal(g: Topology, fns: NodeFns, init: Data, s: Sched, n: NodeId, out: map<NodeId, Outcome>)
    requires g.WellFormed() && Accounted(g, s) && Statuses(g, s) && LeftWaiting(g, fns, init, s, n)
    requires n in g.nodes && !Waiting(g, s, n) && SourcesAgree(g, s, n, out)
    ensures n in s.skipped <==> Local(g, fns, init, n, out) == Skipped
    ensures n in s.done ==> Local(g, fns, init, n, out) == Done(s.nodeStates[n])
    ensures n in s.inflight ==>
      Local(g, fns, init, n, out) ==
        match Exec(g, fns, n, s.inflight[n]) case None => Failed case Some(d) => Done(d)
  {
    forall e | e in g.In(n) ensures !Blocks(g, out, e) && e.from in s.done + s.skipped {
      EdgeMatches(g, fns, init, s, n, out, e);
    }
    UnreachedMatches(g, fns, init, s, n, out);
    JoinFrame(g.In(n), s.nodeStates, DoneData(out));
  }

  lemma {:induction false} SettledMatchesVerdict(cg: CompiledGraph, fns: NodeFns, init: Data, s: Sched, n: NodeId)
    requires cg.Valid() && Inv(cg.g, fns, init, s) && n in cg.g.nodes && !Waiting(cg.g, s, n)
    ensures n in s.skipped <==> Verdict(cg, fns, init, n) == Skipped
    ensures n in s.done ==> Verdict(cg, fns, init, n) == Done(s.nodeStates[n])
    ensures n in s.inflight ==>
      Verdict(cg, fns, init, n) ==
        match Exec(cg.g, fns, n, s.inflight[n]) case None => Failed case Some(d) => Done(d)
    decreases Pos(cg.topoOrder, n)
  {
    var g := cg.g;
    assert LeftWaiting(g, fns, init, s, n);
    var srcs := map m | m in Sources(g, n) :: Verdict(cg, fns, init, m);
    forall e | e in g.In(n)
      ensures e.from in s.done ==> srcs[e.from] == Done(s.nodeStates[e.from])
      ensures e.from in s.skipped ==> srcs[e.from] == Skipped
    {
      SourcesSettled(g, fns, init, s, n, e);
      SettledMatchesVerdict(cg, fns, init, s, e.from);
    }
    LeftMatchesLocal(g, fns, init, s, n, srcs);
  }

  /** When nothing is running any more, the nodes still waiting are exactly the stuck ones. */
  lemma {:induction false} WaitingIsStuck(cg: CompiledGraph, fns: NodeFns, init: Data, s: Sched, n: NodeId)
    requires cg.Valid() && Inv(cg.g, fns, init, s) && AtRest(cg.g, s, {}) && Flushed(cg.g, s) && s.inflight == map[]
    requires Waiting(cg.g, s, n)
    ensures Verdict(cg, fns, init, n) == Stuck
    decreases Pos(cg.topoOrder, n)
  {
    var g := cg.g;
    var srcs := map m | m in Sources(g, n) :: Verdict(cg, fns, init, m);
    assert !Ready(g, s, n);
    var e :| e in g.edges && e.to == n && (if g.IsCond(e.from) then e !in s.byCond else e !in s.byRemaining);
    assert e in g.In(n);
    if Waiting(g, s, e.from) {
      WaitingIsStuck(cg, fns, init, s, e.from);
    } else {
      assert e in Walked(s);
      assert EdgeAccount(g, s, e);
      SettledMatchesVerdict(cg, fns, init, s, e.from);
    }
    assert Blocks(g, srcs, e);
  }
}
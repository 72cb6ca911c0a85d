/** The layered registry and the change feed of a view over it (core/registry/registry.go), for layers
    that are distinct and not linked to one another. Names are strings, values are arbitrary. */
module Registry {
  import opened Options
  import opened Sequences

  type Layer<V> = map<string, V>

  /** One call of the subscriber. */
  datatype Change<V> = Change(name: string, value: V, removed: bool)

  datatype Op<V> = Register(at: nat, name: string, value: V) | Unregister(at: nat, name: string)

  datatype RegisterResult = Registered | EmptyName | NameTaken

  // ---------------------------------------------------------------- what a view shows

  /** The nearest layer, innermost first, that registers `name`. */
  function Winner<V>(layers: seq<Layer<V>>, name: string): (w: Option<nat>)
    ensures w.None? ==> forall i :: 0 <= i < |layers| ==> name !in layers[i]
    ensures w.Some? ==> w.value < |layers| && name in layers[w.value]
                        && forall i :: 0 <= i < w.value ==> name !in layers[i]
  {
    if layers == [] then None
    else if name in layers[0] then Some(0)
    else match Winner(layers[1..], name) case None => None case Some(i) => Some(i + 1)
  }

  /** Nearest scope wins: outer layers first, overwritten by inner ones. */
  function Snap<V>(layers: seq<Layer<V>>): Layer<V> {
    if layers == [] then map[] else Snap(layers[1..]) + layers[0]
  }

  lemma {:induction false} SnapShowsWinners<V>(layers: seq<Layer<V>>, name: string)
    ensures name in Snap(layers) <==> Winner(layers, name).Some?
    ensures name in Snap(layers) ==> Snap(layers)[name] == layers[Winner(layers, name).value][name]
  {
    if layers != [] { SnapShowsWinners(layers[1..], name); }
  }

  lemma WinnerIs<V>(layers: seq<Layer<V>>, name: string, i: nat)
    requires i < |layers| && name in layers[i] && forall j :: 0 <= j < i ==> name !in layers[j]
    ensures Winner(layers, name) == Some(i)
  {
  }

  // ---------------------------------------------------------------- the feed, as a transition

  datatype State<V> = State(layers: seq<Layer<V>>, visible: map<string, nat>, feed: seq<Change<V>>)

  /** What the registration callback of layer `k` does to `visible`, and what it reports. */
  function Shown<V>(visible: map<string, nat>, k: nat, name: string, value: V)
    : (map<string, nat>, seq<Change<V>>)
  {
    if name !in visible || k < visible[name] then (visible[name := k], [Change(name, value, false)])
    else (visible, [])
  }

  /** The first layer at or beyond `from` that registers `name`. */
  function NextOuter<V>(layers: seq<Layer<V>>, from: nat, name: string): (j: nat)
    requires from <= |layers|
    ensures from <= j <= |layers| && (j < |layers| ==> name in layers[j])
    ensures forall i :: from <= i < j ==> name !in layers[i]
    decreases |layers| - from
  {
    if from == |layers| || name in layers[from] then from else NextOuter(layers, from + 1, name)
  }

  /** What the removal callback of layer `k` does; `layers` no longer holds the entry. */
  function Hidden<V>(layers: seq<Layer<V>>, visible: map<string, nat>, k: nat, name: string, value: V)
    : (map<string, nat>, seq<Change<V>>)
    requires k < |layers|
  {
    if name in visible && visible[name] == k then
      var j := NextOuter(layers, k + 1, name);
      if j < |layers| then (visible[name := j], []) else (visible - {name}, [Change(name, value, true)])
    else (visible, [])
  }

  function Put<V>(layers: seq<Layer<V>>, k: nat, name: string, value: V): seq<Layer<V>>
    requires k < |layers|
  {
    layers[k := layers[k][name := value]]
  }

  function Without<V>(layers: seq<Layer<V>>, k: nat, name: string): (r: seq<Layer<V>>)
    requires k < |layers|
    ensures |r| == |layers|
  {
    layers[k := layers[k] - {name}]
  }

  /** One registry operation together with the callbacks it fires. */
  function Step<V>(s: State<V>, op: Op<V>): State<V>
    requires op.at < |s.layers|
  {
    var layer := s.layers[op.at];
    match op
    case Register(k, name, value) =>
      if name == "" || name in layer then s else
      var (v, out) := Shown(s.visible, k, name, value);
      State(Put(s.layers, k, name, value), v, s.feed + out)
    case Unregister(k, name) =>
      if name !in layer then s else
      var layers := Without(s.layers, k, name);
      var (v, out) := Hidden(layers, s.visible, k, name, layer[name]);
      State(layers, v, s.feed + out)
  }

  /** A subscriber seeds from a snapshot and applies the reported changes. */
  function Fold<V>(seed: Layer<V>, feed: seq<Change<V>>): Layer<V> {
    if feed == [] then seed else
      var m, c := Fold(seed, feed[..|feed| - 1]), feed[|feed| - 1];
      if c.removed then m - {c.name} else m[c.name := c.value]
  }

  lemma FoldSnoc<V>(seed: Layer<V>, feed: seq<Change<V>>, c: Change<V>)
    ensures Fold(seed, feed + [c]) == if c.removed then Fold(seed, feed) - {c.name} else Fold(seed, feed)[c.name := c.value]
  {
    assert (feed + [c])[..|feed|] == feed;
  }

  ghost predicate VisibleExact<V>(layers: seq<Layer<V>>, visible: map<string, nat>) {
    forall n :: (n in visible <==> Winner(layers, n).Some?) && (n in visible ==> Some(visible[n]) == Winner(layers, n))
  }

  /** The callback's view of the world is right, and the reported names add up. */
  ghost predicate Inv<V>(seed: Layer<V>, s: State<V>) {
    VisibleExact(s.layers, s.visible) && Fold(seed, s.feed).Keys == Snap(s.layers).Keys
  }

  // ---------------------------------------------------------------- proof

  lemma WinnerElsewhere<V>(layers: seq<Layer<V>>, k: nat, layer: Layer<V>, n: string)
    requires k < |layers| && (n in layer <==> n in layers[k])
    ensures Winner(layers[k := layer], n) == Winner(layers, n)
  {
    var w := Winner(layers, n);
    if w.Some? { WinnerIs(layers[k := layer], n, w.value); }
  }

  lemma WinnerAdded<V>(layers: seq<Layer<V>>, k: nat, name: string, value: V)
    requires k < |layers| && name !in layers[k]
    ensures var w := Winner(layers, name);
            Winner(layers[k := layers[k][name := value]], name) == if w.None? || k < w.value then Some(k) else w
  {
    var after := layers[k := layers[k][name := value]];
    var w := Winner(layers, name);
    WinnerIs(after, name, if w.None? || k < w.value then k else w.value);
  }

  lemma WinnerRemoved<V>(layers: seq<Layer<V>>, k: nat, name: string)
    requires k < |layers| && name in layers[k]
    ensures var after, w := layers[k := layers[k] - {name}], Winner(layers, name);
            && w.Some? && w.value <= k
            && var j := NextOuter(after, k + 1, name);
               Winner(after, name) == if w.value < k then w else if j < |layers| then Some(j) else None
  {
    var after, w := layers[k := layers[k] - {name}], Winner(layers, name);
    var j := NextOuter(after, k + 1, name);
    if w.value < k { WinnerIs(after, name, w.value); } else if j < |layers| { WinnerIs(after, name, j); }
  }

  /** The snapshot before and after an operation, name by name. */
  lemma StepVisible<V>(s: State<V>, op: Op<V>)
    requires op.at < |s.layers| && VisibleExact(s.layers, s.visible)
    ensures VisibleExact(Step(s, op).layers, Step(s, op).visible)
  {
    hide Winner, NextOuter;
    var r, k, layer := Step(s, op), op.at, s.layers[op.at];
    forall n ensures (n in r.visible <==> Winner(r.layers, n).Some?)
                     && (n in r.visible ==> Some(r.visible[n]) == Winner(r.layers, n))
    {
      if r != s {
        if n != op.name { WinnerElsewhere(s.layers, k, r.layers[k], n); }
        else if op.Register? { WinnerAdded(s.layers, k, n, op.value); }
        else { WinnerRemoved(s.layers, k, n); }
      }
    }
  }

  /** Names other than the operation's keep their shown value. */
  lemma OthersUnchanged<V>(s: State<V>, op: Op<V>, n: string)
    requires op.at < |s.layers| && n != op.name
    ensures n in Snap(s.layers) <==> n in Snap(Step(s, op).layers)
    ensures n in Snap(s.layers) ==> Snap(Step(s, op).layers)[n] == Snap(s.layers)[n]
  {
    hide Winner, Snap;
    var r := Step(s, op);
    SnapShowsWinners(s.layers, n);
    SnapShowsWinners(r.layers, n);
    if r.layers != s.layers { WinnerElsewhere(s.layers, op.at, r.layers[op.at], n); }
  }

  /** The operation removes the shown entry of a name and a different value comes to light behind it. */
  ghost predicate Reveals<V>(layers: seq<Layer<V>>, op: Op<V>)
    requires op.at < |layers|
  {
    && op.Unregister? && op.name in layers[op.at] && Winner(layers, op.name) == Some(op.at)
    && var after := layers[op.at := layers[op.at] - {op.name}];
       op.name in Snap(after) && Snap(after)[op.name] != layers[op.at][op.name]
  }

  /** What one operation reports. A registration is reported exactly when it becomes the entry the
      view resolves to, with that value; a removal exactly when the name stops being visible, with
      the value it had. Nothing else is reported. */
  lemma FeedSays<V>(s: State<V>, op: Op<V>)
    requires op.at < |s.layers| && VisibleExact(s.layers, s.visible)
    ensures var r := Step(s, op);
            var wins := op.Register? && r.layers != s.layers && Winner(r.layers, op.name) == Some(op.at);
            var gone := op.name in Snap(s.layers) && op.name !in Snap(r.layers);
            && (wins ==> op.name in Snap(r.layers) && r.feed == s.feed + [Change(op.name, Snap(r.layers)[op.name], false)])
            && (gone ==> r.feed == s.feed + [Change(op.name, Snap(s.layers)[op.name], true)])
            && (!wins && !gone ==> r.feed == s.feed)
  {
    hide Winner, NextOuter, Snap;
    var r, k := Step(s, op), op.at;
    SnapShowsWinners(s.layers, op.name);
    SnapShowsWinners(r.layers, op.name);
    if r.layers != s.layers {
      if op.Register? { WinnerAdded(s.layers, k, op.name, op.value); } else { WinnerRemoved(s.layers, k, op.name); }
    }
  }

  /** An operation the feed does not report leaves the shown value of its name alone, unless it
      reveals an outer one. */
  lemma UnreportedValue<V>(s: State<V>, op: Op<V>)
    requires op.at < |s.layers| && VisibleExact(s.layers, s.visible) && Step(s, op).feed == s.feed
    ensures var r, n := Step(s, op), op.name;
            && (n in Snap(s.layers) <==> n in Snap(r.layers))
            && (n in Snap(s.layers) ==> (Snap(r.layers)[n] == Snap(s.layers)[n] <==> !Reveals(s.layers, op)))
  {
    hide Winner, NextOuter, Snap;
    var r, k := Step(s, op), op.at;
    SnapShowsWinners(s.layers, op.name);
    SnapShowsWinners(r.layers, op.name);
    FeedSays(s, op);
    if r.layers != s.layers {
      if op.Register? { WinnerAdded(s.layers, k, op.name, op.value); } else { WinnerRemoved(s.layers, k, op.name); }
    }
  }

  /** What the subscriber holds for the operation's own name, against what the view shows for it. */
  lemma ReportedValue<V>(seed: Layer<V>, s: State<V>, op: Op<V>)
    requires op.at < |s.layers| && Inv(seed, s) && Step(s, op).feed != s.feed
    ensures var r, n := Step(s, op), op.name;
            && !Reveals(s.layers, op)
            && (n in Fold(seed, r.feed) <==> n in Snap(r.layers))
            && (n in Snap(r.layers) ==> Fold(seed, r.feed)[n] == Snap(r.layers)[n])
            && forall m :: m != n ==>
                 && (m in Fold(seed, r.feed) <==> m in Fold(seed, s.feed))
                 && (m in Fold(seed, s.feed) ==> Fold(seed, r.feed)[m] == Fold(seed, s.feed)[m])
  {
    hide Winner, NextOuter, Snap, Step, VisibleExact, Fold;
    FeedSays(s, op);
    SnapShowsWinners(s.layers, op.name);
    var r := Step(s, op);
    NotRevealed(s, op);
    FoldSnoc(seed, s.feed, r.feed[|s.feed|]);
  }

  lemma NotRevealed<V>(s: State<V>, op: Op<V>)
    requires op.at < |s.layers| && Step(s, op).feed != s.feed && VisibleExact(s.layers, s.visible)
    ensures !Reveals(s.layers, op)
  {
    hide Winner, NextOuter, Snap;
    FeedSays(s, op);
    if op.Unregister? && op.name in s.layers[op.at] { WinnerRemoved(s.layers, op.at, op.name); }
  }

  lemma StepKeepsInv<V>(seed: Layer<V>, s: State<V>, op: Op<V>)
    requires op.at < |s.layers| && Inv(seed, s)
    ensures Inv(seed, Step(s, op))
  {
    hide Winner, NextOuter, Snap, Step, VisibleExact, Fold, Reveals;
    var r := Step(s, op);
    StepVisible(s, op);
    forall n ensures n in Fold(seed, r.feed).Keys <==> n in Snap(r.layers).Keys {
      if r.feed == s.feed { UnreportedValue(s, op); } else { ReportedValue(seed, s, op); }
      if n != op.name { OthersUnchanged(s, op, n); }
      assert n in Fold(seed, s.feed).Keys <==> n in Snap(s.layers).Keys;
    }
  }

  /** The subscriber's map is the snapshot, values included. */
  ghost predicate Agrees<V>(seed: Layer<V>, s: State<V>) { Fold(seed, s.feed) == Snap(s.layers) }

  /** One operation breaks the agreement of values exactly when it reveals a different outer value. */
  lemma StepAgreesIff<V>(seed: Layer<V>, s: State<V>, op: Op<V>)
    requires op.at < |s.layers| && Inv(seed, s) && Agrees(seed, s)
    ensures Agrees(seed, Step(s, op)) <==> !Reveals(s.layers, op)
  {
    hide Winner, NextOuter, Snap, Step, VisibleExact, Fold, Reveals;
    var r := Step(s, op);
    var f := Fold(seed, r.feed);
    StepKeepsInv(seed, s, op);
    if r.feed == s.feed { UnreportedValue(s, op); } else { ReportedValue(seed, s, op); }
    forall n | n != op.name && n in f ensures f[n] == Snap(r.layers)[n] {
      OthersUnchanged(s, op, n);
      assert n in f.Keys && n in Snap(r.layers).Keys;
    }
    assert op.name in f.Keys <==> op.name in Snap(r.layers).Keys;
    if Reveals(s.layers, op) {
      assert op.name in Snap(r.layers) by { RevealedIsShown(s, op); }
      assert f[op.name] != Snap(r.layers)[op.name];
    } else if op.name in f {
      assert f[op.name] == Snap(r.layers)[op.name];
    }
  }

  lemma RevealedIsShown<V>(s: State<V>, op: Op<V>)
    requires op.at < |s.layers| && Reveals(s.layers, op)
    ensures op.name in Snap(Step(s, op).layers)
  {
  }

  // ---------------------------------------------------------------- every run

  ghost predicate InRange<V>(ops: seq<Op<V>>, n: nat) { forall i :: 0 <= i < |ops| ==> ops[i].at < n }

  /** The state `ObserveChanges` starts from: `visible` computed from the layers, nothing reported. */
  ghost predicate Fresh<V>(s: State<V>) { VisibleExact(s.layers, s.visible) && s.feed == [] }

  function Run<V>(s: State<V>, ops: seq<Op<V>>): (r: State<V>)
    requires InRange(ops, |s.layers|)
    ensures |r.layers| == |s.layers|
  {
    if ops == [] then s else Step(Run(s, ops[..|ops| - 1]), ops[|ops| - 1])
  }

  /** After any sequence of registrations and removals, `visible` names the nearest registering layer
      of every name, and folding the feed over the initial names gives the names of the snapshot. */
  lemma {:induction false} EveryRun<V>(s: State<V>, ops: seq<Op<V>>)
    requires Fresh(s) && InRange(ops, |s.layers|)
    ensures Inv(Snap(s.layers), Run(s, ops))
  {
    if ops != [] {
      EveryRun(s, ops[..|ops| - 1]);
      StepKeepsInv(Snap(s.layers), Run(s, ops[..|ops| - 1]), ops[|ops| - 1]);
    }
  }

  ghost predicate RevealsAt<V>(s: State<V>, ops: seq<Op<V>>, i: nat)
    requires InRange(ops, |s.layers|) && i < |ops|
  {
    Reveals(Run(s, ops[..i]).layers, ops[i])
  }

  ghost predicate AgreesAt<V>(s: State<V>, ops: seq<Op<V>>, i: nat)
    requires InRange(ops, |s.layers|) && i <= |ops|
  {
    Agrees(Snap(s.layers), Run(s, ops[..i]))
  }

  /** The values a subscriber folds stay those of the snapshot all along a run if and only if no
      operation of the run removes a shown entry with a different value behind it. */
  lemma {:induction false} ValuesAgreeIff<V>(s: State<V>, ops: seq<Op<V>>, n: nat)
    requires Fresh(s) && InRange(ops, |s.layers|) && n <= |ops|
    ensures (forall i :: 0 <= i <= n ==> AgreesAt(s, ops, i)) <==> (forall i :: 0 <= i < n ==> !RevealsAt(s, ops, i))
  {
    hide Snap, Fold, Reveals, Step, VisibleExact;
    if n == 0 {
      assert ops[..0] == [];
      assert AgreesAt(s, ops, 0) by { NothingReported(s); }
    } else {
      ValuesAgreeIff(s, ops, n - 1);
      var before := Run(s, ops[..n - 1]);
      EveryRun(s, ops[..n - 1]);
      assert ops[..n][..n - 1] == ops[..n - 1];
      if AgreesAt(s, ops, n - 1) {
        StepAgreesIff(Snap(s.layers), before, ops[n - 1]);
        assert Run(s, ops[..n]) == Step(before, ops[n - 1]);
        assert AgreesAt(s, ops, n) <==> !RevealsAt(s, ops, n - 1);
      }
    }
  }

  lemma NothingReported<V>(s: State<V>)
    requires Fresh(s)
    ensures Fold(Snap(s.layers), s.feed) == Snap(s.layers)
  {
  }

  /** Removing an inner entry that hides an outer one with another value is not reported, so a
      subscriber keeps the old value. */
  lemma StaleValueExample()
    ensures var s: State<int> := State([map["t" := 1], map["t" := 2]], map["t" := 0], []);
            var r := Step(s, Unregister(0, "t"));
            && Fresh(s) && r.feed == []
            && Fold(Snap(s.layers), r.feed) == map["t" := 1] && Snap(r.layers) == map["t" := 2]
  {
    var a: Layer<int>, b: Layer<int> := map["t" := 1], map["t" := 2];
    var layers, none: seq<Layer<int>> := [a, b], [];
    assert layers[1..] == [b] && [b][1..] == none;
    var after := layers[0 := a - {"t"}];
    assert after[1..] == [b] && a - {"t"} == map[];
  }

  // ---------------------------------------------------------------- the code

  /** One scope's registry; its observers are the subscription below. */
  class Registry<V> {
    var items: Layer<V>

    constructor ()
      ensures items == map[]
    {
      items := map[];
    }

    method Register(name: string, value: V) returns (r: RegisterResult)
      modifies this
      ensures r == if name == "" then EmptyName else if name in old(items) then NameTaken else Registered
      ensures items == if r.Registered? then old(items)[name := value] else old(items)
    {
      if name == "" { return EmptyName; }
      if name in items { return NameTaken; }
      items := items[name := value];
      return Registered;
    }

    /** The removed value, for the removal event. */
    method Unregister(name: string) returns (r: Option<V>)
      modifies this
      ensures r == if name in old(items) then Some(old(items)[name]) else None
      ensures items == old(items) - {name}
    {
      if name !in items {
        assert items - {name} == items;
        return None;
      }
      r := Some(items[name]);
      items := items - {name};
    }
  }

  ghost function Contents<V>(layers: seq<Registry<V>>): (r: seq<Layer<V>>)
    reads layers
    ensures |r| == |layers| && forall i :: 0 <= i < |layers| ==> r[i] == layers[i].items
  {
    if layers == [] then [] else [layers[0].items] + Contents(layers[1..])
  }

  lemma NothingRemoved<V>(c: seq<Layer<V>>, k: nat, name: string)
    requires k < |c| && name !in c[k]
    ensures c[k := c[k] - {name}] == c
  {
    assert c[k] - {name} == c[k];
  }

  lemma {:induction false} WinnerSnoc<V>(layers: seq<Layer<V>>, i: nat, name: string)
    requires i < |layers|
    ensures Winner(layers[..i + 1], name)
         == if Winner(layers[..i], name).Some? then Winner(layers[..i], name)
            else if name in layers[i] then Some(i) else None
  {
    var w := Winner(layers[..i], name);
    assert forall j :: 0 <= j < i ==> layers[..i][j] == layers[..i + 1][j];
    if w.Some? { WinnerIs(layers[..i + 1], name, w.value); }
    else if name in layers[i] {
      assert forall j :: 0 <= j < i ==> name !in layers[..i][j];
      WinnerIs(layers[..i + 1], name, i);
    }
  }

  /** Walks the layers from innermost to outermost. */
  method Resolve<V>(layers: seq<Registry<V>>, name: string) returns (r: Option<(nat, V)>)
    ensures r.Some? <==> name in Snap(Contents(layers))
    ensures r.Some? ==> Some(r.value.0) == Winner(Contents(layers), name) && r.value.1 == Snap(Contents(layers))[name]
  {
    ghost var c := Contents(layers);
    SnapShowsWinners(c, name);
    for i := 0 to |layers|
      invariant forall j :: 0 <= j < i ==> name !in c[j]
    {
      if name in layers[i].items {
        WinnerIs(c, name, i);
        return Some((i, layers[i].items[name]));
      }
    }
    return None;
  }

  /** The visible names and values, collected layer by layer: a name already seen stays. */
  method Snapshot<V>(layers: seq<Registry<V>>) returns (seen: Layer<V>)
    ensures seen == Snap(Contents(layers))
  {
    ghost var c := Contents(layers);
    hide Contents, Winner, Snap;
    seen := map[];
    assert Shows(seen, c, 0) by { NothingShown<V>(c); }
    for i := 0 to |layers|
      invariant Shows(seen, c, i)
    {
      ghost var before := seen;
      var names := layers[i].items.Keys;
      while names != {}
        invariant names <= c[i].Keys && c[i] == layers[i].items
        invariant Overlaid(before, c[i], c[i].Keys - names, seen)
      {
        var name :| name in names;
        if name !in seen { seen := seen[name := layers[i].items[name]]; }
        names := names - {name};
      }
      ShowsNext(before, c, i, seen);
    }
    assert c[..|layers|] == c;
    forall n ensures n in seen <==> n in Snap(c) { SnapShowsWinners(c, n); }
    forall n | n in seen ensures seen[n] == Snap(c)[n] { SnapShowsWinners(c, n); }
  }

  lemma NothingShown<V>(c: seq<Layer<V>>)
    ensures Shows(map[], c, 0)
  {
  }

  /** `seen` holds what the first `i` layers show. */
  ghost predicate Shows<V>(seen: Layer<V>, c: seq<Layer<V>>, i: nat) {
    i <= |c| && forall n :: (n in seen <==> Winner(c[..i], n).Some?)
                            && (n in seen ==> seen[n] == c[..i][Winner(c[..i], n).value][n])
  }

  /** `seen` is `before` with the names in `done` of `layer` put behind it. */
  ghost predicate Overlaid<V>(before: Layer<V>, layer: Layer<V>, done: set<string>, seen: Layer<V>) {
    && done <= layer.Keys
    && (forall n :: n in seen <==> n in before || n in done)
    && (forall n :: n in seen ==> seen[n] == if n in before then before[n] else layer[n])
  }

  lemma ShowsNext<V>(before: Layer<V>, c: seq<Layer<V>>, i: nat, seen: Layer<V>)
    requires i < |c| && Shows(before, c, i) && Overlaid(before, c[i], c[i].Keys, seen)
    ensures Shows(seen, c, i + 1)
  {
    hide Winner;
    forall n
      ensures (n in seen <==> Winner(c[..i + 1], n).Some?)
              && (n in seen ==> seen[n] == c[..i + 1][Winner(c[..i + 1], n).value][n])
    {
      WinnerSnoc(c, i, n);
    }
  }

  /** One `ObserveChanges` subscription: the callbacks' `visible` map and the reported changes. */
  class Subscription<V> {
    const layers: seq<Registry<V>>
    var visible: map<string, nat>
    var feed: seq<Change<V>>

    ghost function View(): State<V> reads this, layers { State(Contents(layers), visible, feed) }

    constructor (layers: seq<Registry<V>>)
      ensures this.layers == layers && Fresh(View())
    {
      this.layers := layers;
      visible, feed := map[], [];
      new;
      ghost var c := Contents(layers);
      hide Contents;
      var vis: map<string, nat> := map[];
      for i := 0 to |layers|
        invariant Indexes(vis, c, i) && visible == map[] && feed == [] && Contents(layers) == c
      {
        ghost var before := vis;
        var names := layers[i].items.Keys;
        while names != {}
          invariant names <= c[i].Keys && c[i] == layers[i].items
          invariant visible == map[] && feed == [] && Contents(layers) == c
          invariant forall n :: (n in vis <==> n in before || n in c[i].Keys - names)
                                && (n in vis ==> vis[n] == if n in before then before[n] else i)
        {
          var name :| name in names;
          if name !in vis { vis := vis[name := i]; }
          names := names - {name};
        }
        IndexesNext(before, c, i, vis);
      }
      assert c[..|layers|] == c;
      visible := vis;
    }

    /** The observer of layer `k`. */
    method OnRegistered(k: nat, name: string, value: V)
      modifies this
      ensures visible == Shown(old(visible), k, name, value).0
      ensures feed == old(feed) + Shown(old(visible), k, name, value).1
    {
      if name !in visible {
        visible, feed := visible[name := k], feed + [Change(name, value, false)];
      } else if k < visible[name] {
        visible, feed := visible[name := k], feed + [Change(name, value, false)];
      }
    }

    /** The removal observer of layer `k`. */
    method OnRemoved(k: nat, name: string, value: V)
      requires k < |layers|
      modifies this
      ensures visible == Hidden(Contents(layers), old(visible), k, name, value).0
      ensures feed == old(feed) + Hidden(Contents(layers), old(visible), k, name, value).1
    {
      ghost var c := Contents(layers);
      hide Contents, Winner;
      if name in visible && visible[name] == k {
        for j := k + 1 to |layers|
          invariant NextOuter(c, k + 1, name) == NextOuter(c, j, name)
          invariant visible == old(visible) && feed == old(feed) && Contents(layers) == c
        {
          if name in layers[j].items {
            visible := visible[name := j];
            return;
          }
        }
        visible, feed := visible - {name}, feed + [Change(name, value, true)];
      }
    }

    /** Registering at layer `k`, callbacks included. */
    method RegisterAt(k: nat, name: string, value: V) returns (r: RegisterResult)
      requires k < |layers| && Distinct(layers) && forall l :: l in layers ==> l as object != this
      modifies this, layers[k]
      ensures View() == Step(old(View()), Register(k, name, value))
      ensures r.Registered? <==> name != "" && name !in old(layers[k].items)
    {
      hide Winner, Snap, Shown, Step, Put;
      StepRegisters(View(), k, name, value);
      r := PutAt(layers, k, name, value);
      hide Contents;
      if r.Registered? { OnRegistered(k, name, value); }
    }

    /** Removing from layer `k`, callbacks included. */
    method UnregisterAt(k: nat, name: string) returns (existed: bool)
      requires k < |layers| && Distinct(layers) && forall l :: l in layers ==> l as object != this
      modifies this, layers[k]
      ensures View() == Step(old(View()), Unregister(k, name))
      ensures existed <==> name in old(layers[k].items)
    {
      hide Winner, Snap, NextOuter, Hidden, Step, Without, Contents, Distinct;
      ghost var before := View();
      var e := RemoveAt(layers, k, name);
      existed := e.Some?;
      if e.Some? { OnRemoved(k, name, e.value); }
      StepUnregisters(before, k, name);
    }
  }

  /** A registration seen through the contents of all layers. */
  method PutAt<V>(layers: seq<Registry<V>>, k: nat, name: string, value: V) returns (r: RegisterResult)
    requires k < |layers| && Distinct(layers)
    modifies layers[k]
    ensures r == if name == "" then EmptyName else if name in old(Contents(layers))[k] then NameTaken else Registered
    ensures Contents(layers) == if r.Registered? then Put(old(Contents(layers)), k, name, value) else old(Contents(layers))
  {
    r := layers[k].Register(name, value);
  }

  /** A removal seen through the contents of all layers. */
  method RemoveAt<V>(layers: seq<Registry<V>>, k: nat, name: string) returns (r: Option<V>)
    requires k < |layers| && Distinct(layers)
    modifies layers[k]
    ensures r == if name in old(Contents(layers))[k] then Some(old(Contents(layers))[k][name]) else None
    ensures Contents(layers) == if r.Some? then Without(old(Contents(layers)), k, name) else old(Contents(layers))
  {
    ghost var c := Contents(layers);
    r := layers[k].Unregister(name);
    assert Contents(layers) == c[k := c[k] - {name}];
    if r.None? { NothingRemoved(c, k, name); }
  }

  lemma StepRegisters<V>(s: State<V>, k: nat, name: string, value: V)
    requires k < |s.layers|
    ensures Step(s, Register(k, name, value)) ==
      if name == "" || name in s.layers[k] then s
      else State(Put(s.layers, k, name, value), Shown(s.visible, k, name, value).0,
                 s.feed + Shown(s.visible, k, name, value).1)
  {
    hide Put, Shown;
  }

  lemma StepUnregisters<V>(s: State<V>, k: nat, name: string)
    requires k < |s.layers|
    ensures Step(s, Unregister(k, name)) ==
      if name !in s.layers[k] then s
      else var after := Hidden(Without(s.layers, k, name), s.visible, k, name, s.layers[k][name]);
        State(Without(s.layers, k, name), after.0, s.feed + after.1)
  {
    hide Hidden, Without;
  }

  /** `vis` holds the winners among the first `i` layers. */
  ghost predicate Indexes<V>(vis: map<string, nat>, c: seq<Layer<V>>, i: nat) {
    i <= |c| && VisibleExact(c[..i], vis)
  }

  lemma IndexesNext<V>(before: map<string, nat>, c: seq<Layer<V>>, i: nat, vis: map<string, nat>)
    requires i < |c| && Indexes(before, c, i)
    requires forall n :: (n in vis <==> n in before || n in c[i].Keys)
                         && (n in vis ==> vis[n] == if n in before then before[n] else i)
    ensures Indexes(vis, c, i + 1)
  {
    hide Winner;
    forall n
      ensures (n in vis <==> Winner(c[..i + 1], n).Some?)
              && (n in vis ==> Some(vis[n]) == Winner(c[..i + 1], n))
    {
      WinnerSnoc(c, i, n);
    }
  }
}

/** The shared state carried along the edges of a run (graph/state.go), and the join of the
    predecessors' states (graph/graph.go, `collectPredecessorState`). */
module GraphStates {
  import opened Graphs
  import opened Options

  /** A stored value: nil, a string, or anything else (identified by a number). */
  datatype Value = Null | Text(text: string) | Other(id: int)

  type Data = map<string, Value>

  /** One recorded change; a missing old value and the new value of a deletion read as nil. */
  datatype StateEntry = StateEntry(key: string, oldValue: Value, newValue: Value, source: string)

  function Get(d: Data, k: string): Value { if k in d then d[k] else Null }

  /** What `Rollback` rebuilds from the entries it keeps. */
  function Rebuild(h: seq<StateEntry>): Data {
    if h == [] then map[] else
      var d, e := Rebuild(h[..|h| - 1]), h[|h| - 1];
      if e.newValue != Null then d[e.key := e.newValue]
      else if e.oldValue != Null then d
      else d - {e.key}
  }

  /** First write wins: `b` only contributes the keys `a` does not have. */
  function LeftUnion(a: Data, b: Data): Data { b + a }

  ghost function Only(d: Data, keys: set<string>): Data
    requires keys <= d.Keys
  {
    map k | k in keys :: d[k]
  }

  lemma OnlySnoc(a: Data, d: Data, keys: set<string>, k: string)
    requires keys <= d.Keys && k in d
    ensures a + Only(d, keys + {k}) == (a + Only(d, keys))[k := d[k]]
  {
  }

  lemma OnlyAll(a: Data, d: Data)
    ensures a + Only(d, d.Keys - a.Keys) == LeftUnion(a, d)
  {
  }

  // ---------------------------------------------------------------- what a history records

  /** `after` results from `before` by the change that `e` records: a write, or a deletion of a key that was there. */
  ghost predicate Records(before: Data, e: StateEntry, after: Data) {
    && e.oldValue == Get(before, e.key)
    && (after == before[e.key := e.newValue]
        || (e.newValue == Null && e.key in before && after == before - {e.key}))
  }

  /** `past[i]` is the data as it was after `i` changes. */
  ghost predicate Accounts(past: seq<Data>, h: seq<StateEntry>) {
    && |past| == |h| + 1 && past[0] == map[]
    && forall i :: 0 <= i < |h| ==> Records(past[i], h[i], past[i + 1])
  }

  /** The change from `before` to `after` wrote nil, or deleted a value that was not nil. */
  ghost predicate Loses(e: StateEntry, after: Data) { e.newValue == Null && (e.key in after || e.oldValue != Null) }

  /** The last of the first `v` changes to `k`, if any, is one that rebuilding gets wrong. */
  ghost predicate Spoiled(past: seq<Data>, h: seq<StateEntry>, v: nat, k: string)
    requires |past| == |h| + 1 && v <= |h|
  {
    v > 0 && if h[v - 1].key == k then Loses(h[v - 1], past[v]) else Spoiled(past, h, v - 1, k)
  }

  ghost predicate SameAt(a: Data, b: Data, k: string) { (k in a <==> k in b) && Get(a, k) == Get(b, k) }

  lemma SameEverywhere(a: Data, b: Data)
    ensures a == b <==> forall k :: SameAt(a, b, k)
  {
    if forall k :: SameAt(a, b, k) {
      forall k ensures k in a.Keys <==> k in b.Keys { assert SameAt(a, b, k); }
      forall k | k in a ensures a[k] == b[k] { assert SameAt(a, b, k); }
    }
  }

  /** A key comes back as it was exactly when its last change is not of that kind. */
  lemma {:induction false} RebuildAt(past: seq<Data>, h: seq<StateEntry>, v: nat, k: string)
    requires Accounts(past, h) && v <= |h|
    ensures var d := Rebuild(h[..v]);
            && (k in d ==> d[k] != Null)
            && (Get(past[v], k) != Null ==> !Spoiled(past, h, v, k))
            && (SameAt(d, past[v], k) <==> !Spoiled(past, h, v, k))
  {
    if v > 0 {
      RebuildAt(past, h, v - 1, k);
      assert h[..v][..v - 1] == h[..v - 1];
      assert Records(past[v - 1], h[v - 1], past[v]);
    }
  }

  /** Rolling back restores the data as it was after `version` changes if and only if no key's last
      change up to there wrote nil or deleted a value that was not nil. */
  lemma RollbackRestoresIff(past: seq<Data>, h: seq<StateEntry>, version: nat)
    requires Accounts(past, h) && version <= |h|
    ensures Rebuild(h[..version]) == past[version] <==> forall k :: !Spoiled(past, h, version, k)
  {
    hide Rebuild, Spoiled, SameAt;
    var d := Rebuild(h[..version]);
    SameEverywhere(d, past[version]);
    if d == past[version] {
      forall k ensures !Spoiled(past, h, version, k) {
        assert SameAt(d, past[version], k);
        RebuildAt(past, h, version, k);
      }
    } else {
      var k :| !SameAt(d, past[version], k);
      RebuildAt(past, h, version, k);
    }
  }

  /** Rolling back to where it already is brings a deleted key back: setting "k" and deleting it leaves
      nothing, and rebuilding those two changes leaves "k" set. */
  lemma RollbackExample(v: Value)
    requires v != Null
    ensures var past: seq<Data>, h := [map[], map["k" := v], map[]],
                                      [StateEntry("k", Null, v, "set"), StateEntry("k", v, Null, "delete")];
            Accounts(past, h) && Spoiled(past, h, 2, "k") && Rebuild(h[..2]) == map["k" := v] != past[2]
  {
    var past: seq<Data> := [map[], map["k" := v], map[]];
    var h := [StateEntry("k", Null, v, "set"), StateEntry("k", v, Null, "delete")];
    assert past[0]["k" := v] == past[1] && past[1] - {"k"} == past[2];
    assert Records(past[0], h[0], past[1]) && Records(past[1], h[1], past[2]);
    assert h[..2][..1] == h[..1] == [h[0]] && h[..1][..0] == [];
    assert Rebuild(h[..1]) == map["k" := v];
  }

  lemma AccountsNext(past: seq<Data>, h: seq<StateEntry>, e: StateEntry, after: Data)
    requires Accounts(past, h) && Records(past[|h|], e, after)
    ensures Accounts(past + [after], h + [e])
  {
  }

  class GraphState {
    var data: Data
    var history: seq<StateEntry>
    /** The data after every number of changes so far. */
    ghost var past: seq<Data>

    /** The history records how the data came about. It may stop doing so when a rollback goes wrong. */
    ghost predicate Accounted() reads this { Accounts(past, history) && past[|history|] == data }

    constructor ()
      ensures Accounted() && data == map[] && history == []
    {
      data, history, past := map[], [], [map[]];
    }

    method SetWithSource(key: string, value: Value, source: string)
      modifies this
      ensures data == old(data)[key := value]
      ensures history == old(history) + [StateEntry(key, Get(old(data), key), value, source)]
      ensures past == old(past) + [data] && (old(Accounted()) ==> Accounted())
    {
      var e := StateEntry(key, Get(data, key), value, source);
      if Accounted() { AccountsNext(past, history, e, data[key := value]); }
      data := data[key := value];
      history := history + [e];
      past := past + [data];
    }

    /** Removes a key; a missing key leaves no trace. */
    method Delete(key: string)
      modifies this
      ensures data == old(data) - {key}
      ensures history == if key in old(data) then old(history) + [StateEntry(key, old(data)[key], Null, "delete")] else old(history)
      ensures past == (if key in old(data) then old(past) + [data] else old(past)) && (old(Accounted()) ==> Accounted())
    {
      if key !in data {
        assert data - {key} == data;
        return;
      }
      var e := StateEntry(key, data[key], Null, "delete");
      if Accounted() { AccountsNext(past, history, e, data - {key}); }
      data := data - {key};
      history := history + [e];
      past := past + [data];
    }

    /** An independent copy: later writes to either side do not reach the other. */
    method Fork() returns (child: GraphState)
      ensures fresh(child) && child.data == data && child.history == history && child.past == past
    {
      child := new GraphState();
      child.data := data;
      child.history := history;
      child.past := past;
    }

    /** Copies over the keys this state lacks, each through the normal write path. */
    method MergeFrom(other: GraphState)
      modifies this
      ensures data == LeftUnion(old(data), old(other.data))
      ensures old(history) <= history && (old(Accounted()) ==> Accounted())
    {
      hide Accounts;
      var theirs := other.data;
      var toSet := theirs.Keys - data.Keys;
      ghost var before, h0, keys := data, history, toSet;
      while toSet != {}
        invariant toSet <= keys && data == before + Only(theirs, keys - toSet)
        invariant h0 <= history && (old(Accounted()) ==> Accounted())
        decreases toSet
      {
        var k :| k in toSet;
        ghost var d := keys - toSet;
        SetWithSource(k, theirs[k], "merge");
        OnlySnoc(before, theirs, d, k);
        toSet := toSet - {k};
        assert keys - toSet == d + {k};
      }
      OnlyAll(before, theirs);
      assert keys - {} == keys;
    }

    /** Keeps the first `version` changes and rebuilds the data from them. That gives the data as it
        was exactly when no key's last change so far wrote nil or deleted a value that was not nil. */
    method Rollback(version: int) returns (ok: bool)
      modifies this
      ensures ok == (0 <= version <= |old(history)|)
      ensures ok ==> history == old(history)[..version] && data == Rebuild(old(history)[..version])
      ensures ok && old(Accounted()) ==>
        (data == old(past)[version] <==> forall k :: !Spoiled(old(past), old(history), version, k))
      ensures ok && old(Accounted()) && data == old(past)[version] ==> Accounted()
      ensures !ok ==> history == old(history) && data == old(data) && past == old(past)
    {
      hide Accounts, Spoiled;
      if version < 0 || version > |history| { return false; }
      ghost var v: nat := version;
      if Accounted() { RollbackRestoresIff(past, history, v); }
      data := map[];
      for i := 0 to version
        invariant history == old(history) && past == old(past) && data == Rebuild(history[..i])
      {
        assert history[..i + 1][..i] == history[..i];
        var e := history[i];
        if e.newValue == Null && e.oldValue != Null { continue; }
        if e.newValue == Null {
          data := data - {e.key};
        } else {
          data := data[e.key := e.newValue];
        }
      }
      if old(Accounted()) { AccountsPrefix(past, history, v); }
      history := history[..version];
      past := if |past| > v then past[..v + 1] else past;
      ok := true;
    }
  }

  lemma AccountsPrefix(past: seq<Data>, h: seq<StateEntry>, v: nat)
    requires Accounts(past, h) && v <= |h|
    ensures |past| > v && Accounts(past[..v + 1], h[..v])
  {
  }

  // ---------------------------------------------------------------- joins

  /** What a node inherits: the left-biased union of its predecessors' data, in in-edge order,
      predecessors without a state (the skipped ones) contributing nothing. */
  function Join(preds: seq<Edge>, states: map<NodeId, Data>): Option<Data> {
    if preds == [] then None else
      var acc := Join(preds[..|preds| - 1], states);
      var p := preds[|preds| - 1].from;
      if p !in states then acc
      else if acc.None? then Some(states[p])
      else Some(LeftUnion(acc.value, states[p]))
  }

  /** `k` is decided by the predecessor at `i`: the first one that has the key. */
  ghost predicate FirstWith(preds: seq<Edge>, states: map<NodeId, Data>, k: string, i: int) {
    && 0 <= i < |preds| && preds[i].from in states && k in states[preds[i].from]
    && forall j :: 0 <= j < i && preds[j].from in states ==> k !in states[preds[j].from]
  }

  /** A key is in the join exactly when some predecessor has it, and its value is the one of the
      first predecessor, in in-edge order, that has it. */
  lemma {:induction false} JoinFirstWins(preds: seq<Edge>, states: map<NodeId, Data>, k: string)
    ensures Join(preds, states).Some? <==> exists i :: 0 <= i < |preds| && preds[i].from in states
    ensures Join(preds, states).Some? ==>
              (k in Join(preds, states).value <==> exists i :: FirstWith(preds, states, k, i))
    ensures Join(preds, states).Some? ==>
              forall i :: FirstWith(preds, states, k, i) ==>
                k in Join(preds, states).value && Join(preds, states).value[k] == states[preds[i].from][k]
  {
    if preds != [] {
      var n := |preds| - 1;
      var rest := preds[..n];
      JoinFirstWins(rest, states, k);
      assert forall i :: 0 <= i < n ==> rest[i] == preds[i];
      assert forall i :: 0 <= i < n ==> (FirstWith(rest, states, k, i) <==> FirstWith(preds, states, k, i));
      assert forall i :: FirstWith(preds, states, k, i) ==> i <= n;
      if Join(rest, states).Some? && preds[n].from in states {
        if k in Join(rest, states).value {
          var i :| FirstWith(rest, states, k, i);
          assert FirstWith(preds, states, k, i);
        } else if k in states[preds[n].from] {
          FirstIfNone(rest, states, k);
          assert FirstWith(preds, states, k, n);
        }
      } else if preds[n].from in states && k in states[preds[n].from] {
        assert FirstWith(preds, states, k, n);
      }
    }
  }

  /** Where no predecessor comes first with `k`, none has it at all. */
  lemma {:induction false} FirstIfNone(preds: seq<Edge>, states: map<NodeId, Data>, k: string)
    requires forall i :: !FirstWith(preds, states, k, i)
    ensures forall j :: 0 <= j < |preds| && preds[j].from in states ==> k !in states[preds[j].from]
  {
    for j := 0 to |preds|
      invariant forall i :: 0 <= i < j && preds[i].from in states ==> k !in states[preds[i].from]
    {
      assert !FirstWith(preds, states, k, j);
    }
  }

  ghost function DataOf(states: map<NodeId, GraphState>): map<NodeId, Data>
    reads states.Values
  {
    map n | n in states :: states[n].data
  }

  /** The parent state of a node: the single predecessor's own object, or a fresh merge. */
  method CollectPredecessorState(preds: seq<Edge>, states: map<NodeId, GraphState>) returns (r: GraphState?)
    ensures (r == null) == Join(preds, DataOf(states)).None?
    ensures r != null ==> r.data == Join(preds, DataOf(states)).value
    ensures r != null ==> if |preds| == 1 then preds[0].from in states && r == states[preds[0].from] else fresh(r)
    ensures DataOf(states) == old(DataOf(states))
  {
    if |preds| == 0 { return null; }
    if |preds| == 1 {
      assert preds[..0] == [];
      return if preds[0].from in states then states[preds[0].from] else null;
    }
    r := null;
    for i := 0 to |preds|
      invariant DataOf(states) == old(DataOf(states))
      invariant (r == null) == Join(preds[..i], DataOf(states)).None?
      invariant r != null ==> fresh(r) && r.data == Join(preds[..i], DataOf(states)).value
    {
      assert preds[..i + 1][..i] == preds[..i];
      var p := preds[i].from;
      if p !in states { continue; }
      if r == null {
        r := states[p].Fork();
      } else {
        r.MergeFrom(states[p]);
      }
    }
    assert preds[..|preds|] == preds;
  }
}

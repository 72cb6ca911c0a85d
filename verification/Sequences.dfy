/** Sequences without repetition, counting their elements, and leaving elements out. */
module Sequences {
  ghost predicate Distinct<T>(s: seq<T>) {
    forall i, j :: 0 <= i < j < |s| ==> s[i] != s[j]
  }

  function ToSet<T(!new)>(s: seq<T>): (r: set<T>)
    ensures forall x :: x in r <==> x in s
  {
    set x | x in s
  }

  lemma {:induction false} DistinctCard<T(!new)>(s: seq<T>)
    requires Distinct(s)
    ensures |ToSet(s)| == |s|
  {
    if s == [] {
    } else {
      var rest := s[..|s| - 1];
      DistinctCard(rest);
      assert s == rest + [s[|s| - 1]];
      assert ToSet(s) == ToSet(rest) + {s[|s| - 1]};
    }
  }

  lemma SubsetCard<T>(a: set<T>, b: set<T>)
    requires a <= b
    ensures |a| <= |b|
    ensures |a| == |b| ==> a == b
  {
    assert b == a + (b - a);
    assert |b| == |a| + |b - a|;
  }

  lemma DistinctSnoc<T>(s: seq<T>, x: T)
    requires Distinct(s) && x !in s
    ensures Distinct(s + [x])
  {
  }

  // ---------------------------------------------------------------- leaving elements out

  /** `a` is `b` with some elements left out. */
  ghost predicate Subsequence<T>(a: seq<T>, b: seq<T>) {
    if a == [] then true
    else if b == [] then false
    else (a[0] == b[0] && Subsequence(a[1..], b[1..])) || Subsequence(a, b[1..])
  }

  lemma {:induction false} SubsequenceDropFront<T>(a: seq<T>, dropped: seq<T>, b: seq<T>)
    requires Subsequence(a, b)
    ensures Subsequence(a, dropped + b)
    decreases |dropped|
  {
    if dropped == [] {
      assert dropped + b == b;
    } else {
      assert (dropped + b)[1..] == dropped[1..] + b;
      SubsequenceDropFront(a, dropped[1..], b);
    }
  }

  lemma {:induction false} SubsequenceKeepFront<T>(kept: seq<T>, a: seq<T>, b: seq<T>)
    requires Subsequence(a, b)
    ensures Subsequence(kept + a, kept + b)
    decreases |kept|
  {
    if kept == [] {
      assert kept + a == a && kept + b == b;
    } else {
      assert (kept + a)[1..] == kept[1..] + a && (kept + b)[1..] == kept[1..] + b;
      SubsequenceKeepFront(kept[1..], a, b);
    }
  }

  lemma {:induction false} SubsequenceSelf<T>(s: seq<T>)
    ensures Subsequence(s, s)
  {
    SubsequenceKeepFront(s, [], []);
    assert s + [] == s;
  }

  /** The same elements at the end of both. */
  lemma {:induction false} SubsequenceKeepBack<T>(a: seq<T>, b: seq<T>, kept: seq<T>)
    requires Subsequence(a, b)
    ensures Subsequence(a + kept, b + kept)
    decreases |b|
  {
    if a == [] {
      SubsequenceSelf(kept);
      SubsequenceDropFront(kept, b, kept);
      assert a + kept == kept;
    } else {
      assert (a + kept)[1..] == a[1..] + kept && (b + kept)[1..] == b[1..] + kept;
      if a[0] == b[0] && Subsequence(a[1..], b[1..]) {
        SubsequenceKeepBack(a[1..], b[1..], kept);
      } else {
        SubsequenceKeepBack(a, b[1..], kept);
      }
    }
  }

  lemma {:induction false} SubsequenceTransitive<T>(a: seq<T>, b: seq<T>, c: seq<T>)
    requires Subsequence(a, b) && Subsequence(b, c)
    ensures Subsequence(a, c)
    decreases |c|
  {
    if a != [] {
      if b[0] == c[0] && Subsequence(b[1..], c[1..]) {
        if a[0] == b[0] && Subsequence(a[1..], b[1..]) {
          SubsequenceTransitive(a[1..], b[1..], c[1..]);
        } else {
          SubsequenceTransitive(a, b[1..], c[1..]);
        }
      } else {
        SubsequenceTransitive(a, b, c[1..]);
      }
    }
  }

  // ---------------------------------------------------------------- positions

  /** Positions below `n`, in strictly increasing order. */
  ghost predicate Rising(at: seq<nat>, n: nat) {
    && (forall j :: 0 <= j < |at| ==> at[j] < n)
    && (forall i, j :: 0 <= i < j < |at| ==> at[i] < at[j])
  }

  lemma RisingSnoc(at: seq<nat>, n: nat)
    requires Rising(at, n)
    ensures Rising(at, n + 1) && Rising(at + [n], n + 1)
  {
  }

  lemma RisingLast(at: seq<nat>, n: nat)
    requires Rising(at, n) && at != []
    ensures var k := |at| - 1;
            Rising(at[..k], n) && at == at[..k] + [at[k]] && (forall i: nat :: i in at[..k] <==> i in at && i != at[k])
            && forall i: nat :: i in at ==> i <= at[k]
  {
    var k := |at| - 1;
    assert at == at[..k] + [at[k]];
    forall i: nat | i in at[..k] ensures i in at && i != at[k] {
      var j :| 0 <= j < k && at[..k][j] == i;
      assert at[j] == i;
    }
  }

  lemma NoElements(s: seq<nat>)
    ensures s == [] || exists i: nat :: i in s
  {
    if s != [] { assert s[0] in s; }
  }

  /** The positions are determined by which they are. */
  lemma {:induction false} RisingOnce(a: seq<nat>, b: seq<nat>, n: nat)
    requires Rising(a, n) && Rising(b, n) && forall i: nat :: i in a <==> i in b
    ensures a == b
    decreases |a|
  {
    hide Rising;
    if a == [] {
      NoElements(b);
    } else {
      RisingLast(a, n);
      assert a[|a| - 1] in a;
      RisingLast(b, n);
      assert b[|b| - 1] in b;
      RisingOnce(a[..|a| - 1], b[..|b| - 1], n);
    }
  }

  /** The positions of a rest that starts at `d`, and all before it or none. */
  function Behind(d: nat, all: bool, at: seq<nat>): (bt: seq<nat>)
    ensures |bt| == (if all then d else 0) + |at|
    ensures all ==> forall j :: 0 <= j < d ==> bt[j] == j
    ensures forall j :: |bt| - |at| <= j < |bt| ==> bt[j] == at[j - (|bt| - |at|)] + d
  {
    (if all then seq(d, i => i) else []) + seq(|at|, j requires 0 <= j < |at| => at[j] + d)
  }

  lemma BehindRises(d: nat, all: bool, at: seq<nat>, n: nat)
    requires Rising(at, n)
    ensures Rising(Behind(d, all, at), d + n)
    ensures forall i: nat :: i in Behind(d, all, at) <==> if i < d then all else i - d in at
  {
    var bt := Behind(d, all, at);
    var h := |bt| - |at|;
    hide Behind;
    forall i: nat ensures i in bt <==> if i < d then all else i - d in at {
      if i < d && all { assert bt[i] == i; }
      if i >= d && i - d in at {
        var j :| 0 <= j < |at| && at[j] == i - d;
        assert bt[h + j] == i;
      }
    }
  }

  /** `out` lists, in order, the elements of `s` at the positions `at`, which are those that `keep` holds of. */
  ghost predicate FiltersAt<T>(out: seq<T>, s: seq<T>, keep: T -> bool, at: seq<nat>) {
    && Rising(at, |s|) && |at| == |out|
    && (forall j :: 0 <= j < |at| ==> out[j] == s[at[j]])
    && (forall i: nat :: i in at <==> i < |s| && keep(s[i]))
  }

  ghost predicate Filters<T>(out: seq<T>, s: seq<T>, keep: T -> bool) { exists at :: FiltersAt(out, s, keep, at) }

  lemma FiltersNothing<T>(keep: T -> bool)
    ensures Filters([], [], keep)
  {
    assert FiltersAt([], [], keep, []);
  }

  lemma InSnoc(at: seq<nat>, n: nat)
    ensures forall i: nat :: i in at + [n] <==> i in at || i == n
  {
  }

  lemma FiltersSnoc<T>(out: seq<T>, s: seq<T>, keep: T -> bool, x: T)
    requires Filters(out, s, keep)
    ensures Filters(if keep(x) then out + [x] else out, s + [x], keep)
  {
    var at :| FiltersAt(out, s, keep, at);
    var n: nat := |s|;
    var more: seq<nat> := at + [n];
    RisingSnoc(at, n);
    InSnoc(at, n);
    hide Rising;
    assert forall j :: 0 <= j < |at| ==> at[j] in at;
    if keep(x) {
      assert FiltersAt(out + [x], s + [x], keep, more);
    } else {
      assert FiltersAt(out, s + [x], keep, at);
    }
  }
}

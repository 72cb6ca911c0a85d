/** Weighted route selection by a shared counter (modelrouter/modelrouter.go). */
module Router {
  import opened Options

  const WRAP: nat := 0x1_0000_0000_0000_0000

  /** A weight that is not positive counts as 1. */
  function Effective(w: int): (r: nat)
    ensures r > 0
  {
    if w <= 0 then 1 else w
  }

  /** W, the sum of the effective weights. */
  function Total(weights: seq<int>): (r: nat)
    ensures weights != [] ==> r > 0
  {
    if weights == [] then 0 else Total(weights[..|weights| - 1]) + Effective(weights[|weights| - 1])
  }

  /** Route `i` owns the `Effective(weights[i])` residues that start at the total of the routes before it. */
  ghost predicate Owns(weights: seq<int>, i: int, residue: int) {
    0 <= i < |weights| && Total(weights[..i]) <= residue < Total(weights[..i]) + Effective(weights[i])
  }

  lemma TotalStep(weights: seq<int>, i: nat)
    requires i < |weights|
    ensures Total(weights[..i + 1]) == Total(weights[..i]) + Effective(weights[i])
  {
    assert weights[..i + 1][..i] == weights[..i];
  }

  lemma {:induction false} TotalMonotone(weights: seq<int>, i: nat, j: nat)
    requires i <= j <= |weights|
    ensures Total(weights[..i]) <= Total(weights[..j])
  {
    if i < j {
      TotalMonotone(weights, i, j - 1);
      TotalStep(weights, j - 1);
    }
  }

  /** No residue has two owners. */
  lemma OwnerUnique(weights: seq<int>, i: int, j: int, residue: int)
    requires Owns(weights, i, residue) && Owns(weights, j, residue)
    ensures i == j
  {
    if i < j { TotalStep(weights, i); TotalMonotone(weights, i + 1, j); }
    if j < i { TotalStep(weights, j); TotalMonotone(weights, j + 1, i); }
  }

  /** Every residue below the total has an owner. */
  lemma {:induction false} OwnerExists(weights: seq<int>, residue: nat)
    requires residue < Total(weights)
    ensures exists i: nat :: Owns(weights, i, residue)
  {
    var n := |weights| - 1;
    if residue >= Total(weights[..n]) {
      assert Owns(weights, n, residue);
    } else {
      OwnerExists(weights[..n], residue);
      var i: nat :| Owns(weights[..n], i, residue);
      assert weights[..n][..i] == weights[..i];
      assert Owns(weights, i, residue);
    }
  }

  /** The route that owns the residue of counter value `c`. */
  ghost function Chosen(weights: seq<int>, c: nat): (i: nat)
    requires weights != []
    ensures Owns(weights, i, c % Total(weights))
  {
    OwnerExists(weights, c % Total(weights));
    var i: nat :| Owns(weights, i, c % Total(weights));
    i
  }

  /** 1 if counter value `c` selects route `i`, else 0. */
  ghost function Hit(weights: seq<int>, i: int, c: nat): nat
    requires weights != []
  {
    if Chosen(weights, c) == i then 1 else 0
  }

  /** How many of the `n` counter values from `c` on select route `i`. */
  ghost function Picks(weights: seq<int>, i: int, c: nat, n: nat): nat
    requires weights != []
  {
    if n == 0 then 0 else Picks(weights, i, c, n - 1) + Hit(weights, i, c + n - 1)
  }

  // ---------------------------------------------------------------- the window theorem

  lemma PicksFirst(weights: seq<int>, i: int, c: nat, n: nat)
    requires weights != []
    ensures Picks(weights, i, c, n + 1) == Hit(weights, i, c) + Picks(weights, i, c + 1, n)
  {
    hide Hit;
    if n > 0 { PicksFirst(weights, i, c, n - 1); }
  }

  lemma ResidueIs(x: int, w: int, q: int, r: int)
    requires x == w * q + r && 0 <= r < w
    ensures x % w == r
  {
    var d := q - x / w;
    assert w * d == w * q - w * (x / w);
    assert d >= 1 ==> w * d >= w;
    assert d <= -1 ==> w * d <= -w;
  }

  lemma SameResidue(c: nat, w: nat)
    requires w > 0
    ensures (c + w) % w == c % w
  {
    assert w * (c / w + 1) == w * (c / w) + w;
    ResidueIs(c + w, w, c / w + 1, c % w);
  }

  /** Moving the window by one drops and gains the same residue. */
  lemma {:induction false} WindowSlides(weights: seq<int>, i: int, c: nat)
    requires weights != []
    ensures Picks(weights, i, c + 1, Total(weights)) == Picks(weights, i, c, Total(weights))
  {
    var w := Total(weights);
    PicksFirst(weights, i, c, w);
    SameResidue(c, w);
    OwnerUnique(weights, Chosen(weights, c), Chosen(weights, c + w), c % w);
  }

  /** From counter 0 on, the first `n` values give route `i` the part of its interval below `n`. */
  lemma {:induction false} PicksFromZero(weights: seq<int>, i: nat, n: nat)
    requires i < |weights| && n <= Total(weights)
    ensures var lo, hi := Total(weights[..i]), Total(weights[..i]) + Effective(weights[i]);
            Picks(weights, i, 0, n) == if n <= lo then 0 else if n <= hi then n - lo else hi - lo
  {
    if n > 0 {
      PicksFromZero(weights, i, n - 1);
      var r := n - 1;
      ResidueIs(r, Total(weights), 0, r);
      if Owns(weights, i, r) { OwnerUnique(weights, i, Chosen(weights, r), r); }
    }
  }

  /** In every window of W consecutive counter values, route `i` is selected exactly as often as its
      effective weight says. */
  lemma {:induction false} WindowIsExact(weights: seq<int>, i: nat, c: nat)
    requires i < |weights|
    ensures Picks(weights, i, c, Total(weights)) == Effective(weights[i])
  {
    if c == 0 {
      PicksFromZero(weights, i, Total(weights));
      TotalStep(weights, i);
      TotalMonotone(weights, i + 1, |weights|);
      assert weights[..|weights|] == weights;
    } else {
      WindowIsExact(weights, i, c - 1);
      WindowSlides(weights, i, c - 1);
    }
  }

  /** Said with the weights as configured: a positive weight is how often its route is selected. */
  lemma WindowByWeight(weights: seq<int>, i: nat, c: nat)
    requires i < |weights|
    ensures Picks(weights, i, c, Total(weights)) == if weights[i] > 0 then weights[i] else 1
  {
    WindowIsExact(weights, i, c);
  }

  /** With default weights the weighted policy is the round robin one: counter modulo route count. */
  lemma UnweightedIsRoundRobin(weights: seq<int>, c: nat)
    requires weights != [] && forall j :: 0 <= j < |weights| ==> weights[j] <= 1
    ensures Chosen(weights, c) == c % |weights|
  {
    var i := Chosen(weights, c);
    TotalOfOnes(weights);
    TotalOfOnes(weights[..i]);
    assert weights[i] in weights;
  }

  lemma {:induction false} TotalOfOnes(weights: seq<int>)
    requires forall j :: 0 <= j < |weights| ==> weights[j] <= 1
    ensures Total(weights) == |weights|
  {
    if weights != [] {
      TotalOfOnes(weights[..|weights| - 1]);
      assert weights[|weights| - 1] in weights;
    }
  }

  // ---------------------------------------------------------------- windows across the wrap

  /** `Picks` for a counter that returns to 0 after `wrap - 1`. */
  ghost function WrappedPicks(weights: seq<int>, wrap: nat, i: int, c: nat, n: nat): nat
    requires weights != [] && wrap > 0
  {
    if n == 0 then 0
    else WrappedPicks(weights, wrap, i, c, n - 1) + Hit(weights, i, (c + n - 1) % wrap)
  }

  ghost predicate EveryWindowExact(weights: seq<int>, wrap: nat)
    requires weights != [] && wrap > 0
  {
    forall i: nat, c: nat :: i < |weights| && c < wrap ==>
      WrappedPicks(weights, wrap, i, c, Total(weights)) == Effective(weights[i])
  }

  lemma ResidueOfSum(c: nat, d: nat, k: nat, w: nat)
    requires w > 0 && c % w == d % w
    ensures (c + k) % w == (d + k) % w
  {
    var r := c % w + k;
    assert w * (c / w + r / w) == w * (c / w) + w * (r / w);
    assert w * (d / w + r / w) == w * (d / w) + w * (r / w);
    ResidueIs(c + k, w, c / w + r / w, r % w);
    ResidueIs(d + k, w, d / w + r / w, r % w);
  }

  lemma ResidueThrough(x: nat, wrap: nat, w: nat)
    requires w > 0 && wrap > 0 && wrap % w == 0
    ensures (x % wrap) % w == x % w
  {
    var k, q, y := wrap / w, x / wrap, x % wrap;
    assert wrap * q == w * (k * q);
    assert w * (k * q + y / w) == w * (k * q) + w * (y / w);
    ResidueIs(x, w, k * q + y / w, y % w);
  }

  lemma {:induction false} PicksShift(weights: seq<int>, i: int, c: nat, d: nat, n: nat)
    requires weights != [] && c % Total(weights) == d % Total(weights)
    ensures Picks(weights, i, c, n) == Picks(weights, i, d, n)
  {
    hide Total, Effective;
    if n > 0 {
      PicksShift(weights, i, c, d, n - 1);
      ResidueOfSum(c, d, n - 1, Total(weights));
      OwnerUnique(weights, Chosen(weights, c + n - 1), Chosen(weights, d + n - 1), (c + n - 1) % Total(weights));
    }
  }

  lemma {:induction false} WrapDivides(weights: seq<int>, wrap: nat, i: int, c: nat, n: nat)
    requires weights != [] && wrap > 0 && wrap % Total(weights) == 0
    ensures WrappedPicks(weights, wrap, i, c, n) == Picks(weights, i, c, n)
  {
    if n > 0 {
      var x := c + n - 1;
      WrapDivides(weights, wrap, i, c, n - 1);
      ResidueThrough(x, wrap, Total(weights));
      OwnerUnique(weights, Chosen(weights, x), Chosen(weights, x % wrap), x % Total(weights));
    }
  }

  lemma {:induction false} SingleRoute(weights: seq<int>, wrap: nat, c: nat, n: nat)
    requires |weights| == 1 && wrap > 0
    ensures WrappedPicks(weights, wrap, 0, c, n) == n
  {
    if n > 0 { SingleRoute(weights, wrap, c, n - 1); }
  }

  lemma WrapOnce(x: nat, wrap: nat)
    requires x < 2 * wrap
    ensures x % wrap == if x < wrap then x else x - wrap
  {
    if x < wrap { ResidueIs(x, wrap, 0, x); } else { ResidueIs(x, wrap, 1, x - wrap); }
  }

  /** A window that wraps is one before the wrap followed by one from 0. */
  lemma {:induction false} WindowParts(weights: seq<int>, wrap: nat, i: int, c: nat, n: nat)
    requires weights != [] && c < wrap && n <= wrap
    ensures WrappedPicks(weights, wrap, i, c, n)
         == if c + n <= wrap then Picks(weights, i, c, n)
            else Picks(weights, i, c, wrap - c) + Picks(weights, i, 0, c + n - wrap)
  {
    hide Hit;
    if n > 0 {
      WindowParts(weights, wrap, i, c, n - 1);
      WrapOnce(c + n - 1, wrap);
    }
  }

  /** Across a wrap the last route is short-changed when the total does not divide the wrap. */
  lemma LastRouteLoses(weights: seq<int>, wrap: nat, c: nat, m: nat)
    requires |weights| > 1 && c + m == wrap && c % Total(weights) == 0 && 0 < m < Total(weights) <= wrap
    ensures WrappedPicks(weights, wrap, |weights| - 1, c, Total(weights)) < Effective(weights[|weights| - 1])
  {
    var w, i := Total(weights), |weights| - 1;
    WindowParts(weights, wrap, i, c, w);
    ResidueIs(0, w, 0, 0);
    PicksShift(weights, i, c, 0, m);
    PicksFromZero(weights, i, m);
    PicksFromZero(weights, i, w - m);
  }

  /** The part of the counter's range before its last, incomplete window. */
  function Even(wrap: nat, w: nat): (c: nat)
    requires w > 0
    ensures c <= wrap < c + w && c % w == 0 && (c == wrap <==> wrap % w == 0)
  {
    assert wrap - wrap % w == w * (wrap / w);
    ResidueIs(wrap - wrap % w, w, wrap / w, 0);
    wrap - wrap % w
  }

  lemma WindowsAcrossExact(weights: seq<int>, wrap: nat)
    requires weights != [] && wrap > 0 && (|weights| == 1 || wrap % Total(weights) == 0)
    ensures EveryWindowExact(weights, wrap)
  {
    forall i: nat, c: nat | i < |weights| && c < wrap
      ensures WrappedPicks(weights, wrap, i, c, Total(weights)) == Effective(weights[i])
    {
      if |weights| == 1 {
        SingleRoute(weights, wrap, c, Total(weights));
      } else {
        WrapDivides(weights, wrap, i, c, Total(weights));
        WindowIsExact(weights, i, c);
      }
    }
  }

  /** The windows that contain a wrap of the counter are exact too if and only if there is a single
      route or the total weight divides the counter's range. */
  lemma WrapHarmlessIff(weights: seq<int>, wrap: nat)
    requires weights != [] && Total(weights) <= wrap
    ensures EveryWindowExact(weights, wrap) <==> |weights| == 1 || wrap % Total(weights) == 0
  {
    hide Even, Total, Effective;
    var w := Total(weights);
    var c := Even(wrap, w);
    if |weights| == 1 || c == wrap {
      WindowsAcrossExact(weights, wrap);
    } else {
      LastRouteLoses(weights, wrap, c, wrap - c);
      var i: nat := |weights| - 1;
      assert WrappedPicks(weights, wrap, i, c, w) != Effective(weights[i]);
    }
  }

  // ---------------------------------------------------------------- the code

  /** The router's routes (their weights) and its shared counter. */
  class ModelRouter {
    const weights: seq<int>
    var counter: nat

    ghost predicate Valid() reads this { counter < WRAP }

    constructor (weights: seq<int>)
      ensures Valid() && this.weights == weights && counter == 0
    {
      this.weights, counter := weights, 0;
    }

    /** `counter.Add(1)` on a 64-bit word. */
    method Bump() returns (c: nat)
      requires Valid()
      modifies this
      ensures Valid() && c == counter == (old(counter) + 1) % WRAP
    {
      counter := if counter + 1 == WRAP then 0 else counter + 1;
      c := counter;
    }

    /** The index of the route to use; None without routes. */
    method PickWeighted() returns (r: Option<nat>)
      requires Valid()
      modifies this
      ensures Valid()
      ensures weights == [] ==> r == None && counter == old(counter)
      ensures weights != [] ==> counter == (old(counter) + 1) % WRAP && r == Some(Chosen(weights, counter))
    {
      if |weights| == 0 { return None; }
      var total := 0;
      for i := 0 to |weights|
        invariant total == Total(weights[..i]) && counter == old(counter)
      {
        var w := weights[i];
        if w <= 0 { w := 1; }
        TotalStep(weights, i);
        total := total + w;
      }
      assert weights[..|weights|] == weights;
      var c := Bump();
      var n := c % total;
      ghost var residue := n;
      r := Some(0);
      for i := 0 to |weights|
        invariant n == residue - Total(weights[..i]) >= 0
        invariant c == counter == (old(counter) + 1) % WRAP
      {
        var w := weights[i];
        if w <= 0 { w := 1; }
        if n < w {
          OwnerUnique(weights, i, Chosen(weights, c), residue);
          return Some(i);
        }
        TotalStep(weights, i);
        n := n - w;
      }
      assert false; // falling through to route 0 never happens
    }

    /** The round-robin index. */
    method PickRoundRobin() returns (r: Option<nat>)
      requires Valid()
      modifies this
      ensures Valid()
      ensures weights == [] ==> r == None && counter == old(counter)
      ensures weights != [] ==> counter == (old(counter) + 1) % WRAP && r == Some(counter % |weights|)
    {
      if |weights| == 0 { return None; }
      var c := Bump();
      r := Some(c % |weights|);
    }
  }
}

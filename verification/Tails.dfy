/** Keeping the newest part of a stream, shared by the bounded buffers. */
module Tails {
  /** The newest `cap` elements. */
  function Tail<T>(all: seq<T>, cap: nat): (r: seq<T>)
    ensures |r| <= cap && |r| <= |all| && r == all[|all| - |r|..]
  {
    if |all| <= cap then all else all[|all| - cap..]
  }

  /** As many as there are, up to the bound. */
  lemma TailSays<T>(all: seq<T>, cap: nat)
    ensures |Tail(all, cap)| == if |all| <= cap then |all| else cap
  {
  }

  /** Appending and cutting again is the same as cutting once. */
  lemma TailAppend<T>(all: seq<T>, more: seq<T>, cap: nat)
    ensures Tail(Tail(all, cap) + more, cap) == Tail(all + more, cap)
  {
    var kept := Tail(all, cap);
    assert all + more == all[..|all| - |kept|] + (kept + more);
  }

  /** Cutting a suffix is the same as taking the suffix of the cut. */
  lemma TailOfSuffix<T>(all: seq<T>, p: nat, cap: nat)
    requires p <= |all|
    ensures var gone := |all| - |Tail(all, cap)|;
            Tail(all, cap)[if p >= gone then p - gone else 0..] == Tail(all[p..], cap)
  {
    if |all| > cap {
      var gone := |all| - cap;
      if p >= gone { DropAgain(all, gone, p - gone); } else { DropAgain(all, p, gone - p); }
    }
  }

  lemma DropAgain<T>(s: seq<T>, a: nat, b: nat)
    requires a + b <= |s|
    ensures s[a..][b..] == s[a + b..]
  {
  }
}

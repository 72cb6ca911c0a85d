/** The bounded output store of a background job and its single-cursor reads (core/jobs/jobs.go).
    `T` stands for a byte. */
module TailStore {
  import opened Tails

  const DEFAULT_CAP: nat := 0x10_0000

  /** Where a read from `since` starts: at the cursor, or at the oldest retained byte after falling behind. */
  function StartAt(written: nat, cap: nat, since: int): (r: nat)
    ensures r <= written
  {
    var oldest := if written <= cap then 0 else written - cap;
    if since < oldest then oldest else if since > written then written else since
  }

  class Store<T> {
    const cap: nat
    var buf: seq<T>
    var total: nat
    /** Everything ever written. */
    ghost var all: seq<T>

    ghost predicate Valid() reads this { cap > 0 && buf == Tail(all, cap) && total == |all| }

    constructor (cap: int)
      ensures Valid() && all == [] && this.cap == if cap <= 0 then DEFAULT_CAP else cap
    {
      this.cap := if cap <= 0 then DEFAULT_CAP else cap;
      buf, total, all := [], 0, [];
    }

    /** Appends, then drops the oldest bytes beyond the cap. */
    method Write(p: seq<T>) returns (n: nat)
      requires Valid()
      modifies this
      ensures Valid() && all == old(all) + p && n == |p|
    {
      TailAppend(all, p, cap);
      buf := buf + p;
      total := total + |p|;
      all := all + p;
      if |buf| > cap {
        var excess := |buf| - cap;
        buf := buf[excess..];
      }
      n := |p|;
    }

    /** The retained bytes after the offset `since`, and the new offset. */
    method Read(since: int) returns (out: seq<T>, next: nat)
      requires Valid()
      ensures out == all[StartAt(|all|, cap, since)..] && next == |all|
      ensures |out| <= |all| && out == all[|all| - |out|..]
      ensures var p := |all| - |out|;  // the first byte that is neither before the cursor nor dropped
              (p < |all| ==> since <= p) && p + cap >= |all| && (p > 0 ==> p - 1 < since || p - 1 + cap < |all|)
    {
      var start := since - (total - |buf|);
      if start < 0 { start := 0; }
      if start > |buf| { start := |buf|; }
      out := buf[start..];
      next := total;
    }
  }

  // ---------------------------------------------------------------- a polling reader

  datatype Event<T> = Wrote(p: seq<T>) | Polled

  /** What the job wrote, the reader's cursor, the bytes it received and their offsets. */
  datatype Session<T> = Session(all: seq<T>, cursor: nat, got: seq<T>, offsets: seq<nat>)

  function Range(lo: nat, hi: nat): (r: seq<nat>)
    requires lo <= hi
    ensures |r| == hi - lo && forall i :: 0 <= i < |r| ==> r[i] == lo + i
  {
    seq(hi - lo, i requires 0 <= i < hi - lo => lo + i)
  }

  /** Writes and polls in any order; every poll passes the offset the previous one returned. */
  function Play<T>(cap: nat, events: seq<Event<T>>): Session<T> {
    if events == [] then Session([], 0, [], []) else
      var s := Play(cap, events[..|events| - 1]);
      match events[|events| - 1]
      case Wrote(p) => s.(all := s.all + p)
      case Polled => Poll(cap, s)
  }

  /** The reader takes what is retained from its cursor on. */
  function Poll<T>(cap: nat, s: Session<T>): Session<T> {
    var start := StartAt(|s.all|, cap, s.cursor);
    Session(s.all, |s.all|, s.got + s.all[start..], s.offsets + Range(start, |s.all|))
  }

  /** The `i`-th event is a poll that comes after more than `cap` bytes arrived since the previous one. */
  ghost predicate BehindAt<T>(cap: nat, events: seq<Event<T>>, i: nat)
    requires i < |events|
  {
    events[i].Polled? && |Play(cap, events[..i]).all| - Play(cap, events[..i]).cursor > cap
  }

  ghost predicate InOrder<T>(s: Session<T>) {
    && s.cursor <= |s.all| && |s.got| == |s.offsets|
    && (forall i :: 0 <= i < |s.offsets| ==> s.offsets[i] < s.cursor && s.got[i] == s.all[s.offsets[i]])
    && (forall i, j :: 0 <= i < j < |s.offsets| ==> s.offsets[i] < s.offsets[j])
  }

  /** Polling never delivers a byte twice and never out of order. */
  lemma {:induction false} NoDuplicates<T>(cap: nat, events: seq<Event<T>>)
    ensures InOrder(Play(cap, events))
  {
    if events != [] { NoDuplicates(cap, events[..|events| - 1]); }
  }

  /** The reader misses nothing up to its cursor if and only if no poll came more than the retained
      tail behind. */
  lemma {:induction false} GaplessIff<T>(cap: nat, events: seq<Event<T>>)
    ensures var s := Play(cap, events);
            s.cursor <= |s.all| && (s.got == s.all[..s.cursor] <==> forall i :: 0 <= i < |events| ==> !BehindAt(cap, events, i))
  {
    NoDuplicates(cap, events);
    Received(cap, events, |events|);
    assert events[..|events|] == events;
  }

  lemma PlayNothing<T>(cap: nat, events: seq<Event<T>>)
    requires events == []
    ensures Play(cap, events) == Session([], 0, [], [])
  {
  }

  lemma PlayStep<T>(cap: nat, events: seq<Event<T>>, n: nat)
    requires 0 < n <= |events|
    ensures var before, s := Play(cap, events[..n - 1]), Play(cap, events[..n]);
            match events[n - 1]
            case Wrote(p) => s == before.(all := before.all + p)
            case Polled => s == Poll(cap, before)
  {
    hide Poll;
    assert events[..n][..n - 1] == events[..n - 1];
  }

  /** One poll keeps the reader complete, or incomplete, unless it comes too late. */
  lemma PollStep<T>(cap: nat, before: Session<T>)
    requires before.cursor <= |before.all|
    requires before.got == before.all[..before.cursor] || |before.got| < before.cursor
    ensures var s := Poll(cap, before);
            && s.cursor == |s.all|
            && (before.got == before.all[..before.cursor] && |before.all| - before.cursor <= cap ==> s.got == s.all[..s.cursor])
            && (|before.got| < before.cursor || |before.all| - before.cursor > cap ==> |s.got| < s.cursor)
  {
    assert before.all == before.all[..before.cursor] + before.all[before.cursor..];
  }

  lemma {:induction false} Received<T>(cap: nat, events: seq<Event<T>>, n: nat)
    requires n <= |events|
    ensures var s := Play(cap, events[..n]);
            s.cursor <= |s.all| &&
            if forall i :: 0 <= i < n ==> !BehindAt(cap, events, i)
            then s.got == s.all[..s.cursor] else |s.got| < s.cursor
  {
    hide Play, Poll;
    if n == 0 {
      PlayNothing(cap, events[..0]);
    } else {
      Received(cap, events, n - 1);
      PlayStep(cap, events, n);
      var before := Play(cap, events[..n - 1]);
      assert BehindAt(cap, events, n - 1) <==> events[n - 1].Polled? && |before.all| - before.cursor > cap;
      if events[n - 1].Wrote? {
        assert (before.all + events[n - 1].p)[..before.cursor] == before.all[..before.cursor];
      } else {
        PollStep(cap, before);
      }
    }
  }
}

/** The strict-FIFO semaphore of the workflow engine (agents/workflow/slots.go), as a protocol: each
    call of `acquire` is a ticket, and every critical section is one atomic step. */
module Slots {
  import opened Options
  import opened Sequences

  type Ticket = nat

  /** Where a call of `acquire` (and the release that ends it) stands. `Handed` is the window in
      which `release` has closed the waiter's channel and the waiter has not noticed yet. */
  datatype Phase = Waiting | Handed | Owner | GaveUp | Released

  /** The queue, with the history the FIFO claim speaks about: tickets in arrival order, tickets in
      the order they were popped, and tickets that cancelled while queued. */
  datatype Queue = Queue(
    n: nat,
    free: int,
    waiters: seq<Ticket>,
    phase: map<Ticket, Phase>,
    arrivals: seq<Ticket>,
    granted: seq<Ticket>,
    quit: set<Ticket>)

  datatype Action = Enter | Notice(t: Ticket) | Cancel(t: Ticket) | Release(t: Ticket)

  function Start(n: int): Queue { Queue(if n <= 0 then 1 else n, if n <= 0 then 1 else n, [], map[], [], [], {}) }

  /** The next unused ticket. */
  function Next(q: Queue): Ticket { |q.phase| }

  function Without(s: seq<Ticket>, t: Ticket): seq<Ticket> {
    if s == [] then [] else if s[0] == t then s[1..] else [s[0]] + Without(s[1..], t)
  }

  /** One atomic step; None when the step is not possible now. */
  function Step(q: Queue, a: Action): Option<Queue> {
    match a
    case Enter =>
      var t := Next(q);
      if q.free > 0 then Some(q.(free := q.free - 1, phase := q.phase[t := Owner]))
      else Some(q.(waiters := q.waiters + [t], phase := q.phase[t := Waiting], arrivals := q.arrivals + [t]))
    case Notice(t) =>
      if t in q.phase && q.phase[t].Handed? then Some(q.(phase := q.phase[t := Owner])) else None
    case Cancel(t) =>
      if t in q.phase && (q.phase[t].Waiting? || q.phase[t].Handed?) then
        if t in q.waiters
        then Some(q.(waiters := Without(q.waiters, t), phase := q.phase[t := GaveUp], quit := q.quit + {t}))
        else Some(q.(phase := q.phase[t := Owner]))
      else None
    case Release(t) =>
      if t in q.phase && q.phase[t].Owner? then
        var p := q.phase[t := Released];
        if q.waiters != []
        then Some(q.(waiters := q.waiters[1..], phase := p[q.waiters[0] := Handed], granted := q.granted + [q.waiters[0]]))
        else Some(q.(free := q.free + 1, phase := p))
      else None
  }

  /** The tickets that own a slot, noticed or not. */
  ghost function Holders(q: Queue): set<Ticket> {
    set t | t in q.phase && (q.phase[t].Owner? || q.phase[t].Handed?)
  }

  ghost function Remaining(arrivals: seq<Ticket>, quit: set<Ticket>): seq<Ticket> {
    if arrivals == [] then [] else
      var last := arrivals[|arrivals| - 1];
      Remaining(arrivals[..|arrivals| - 1], quit) + (if last in quit then [] else [last])
  }

  /** Conservation: free slots and held slots make up `n`; and no slot idles while someone waits. */
  ghost predicate Conserved(q: Queue) {
    q.free >= 0 && q.free + |Holders(q)| == q.n && (q.free > 0 ==> q.waiters == [])
  }

  /** The queue holds exactly the waiting tickets. */
  ghost predicate QueueExact(q: Queue) {
    forall t :: t in q.waiters <==> t in q.phase && q.phase[t].Waiting?
  }

  /** Tickets are numbered in order of entry. */
  ghost predicate Numbered(q: Queue) {
    && (forall t: nat :: t in q.phase <==> t < |q.phase|)
    && (forall t :: t in q.arrivals ==> t < |q.phase|)
    && (forall t :: t in q.quit ==> t < |q.phase|)
    && Distinct(q.arrivals)
  }

  /** First come, first served: the tickets popped so far followed by those still queued are the
      arrivals, in order, that did not cancel. */
  ghost predicate Fifo(q: Queue) { q.granted + q.waiters == Remaining(q.arrivals, q.quit) }

  ghost predicate Inv(q: Queue) { Conserved(q) && QueueExact(q) && Numbered(q) && Fifo(q) }

  // ---------------------------------------------------------------- proof

  lemma {:induction false} RemainingIn(a: seq<Ticket>, quit: set<Ticket>)
    requires Distinct(a)
    ensures forall t :: t in Remaining(a, quit) <==> t in a && t !in quit
    ensures Distinct(Remaining(a, quit))
  {
    if a != [] {
      var rest, last := a[..|a| - 1], a[|a| - 1];
      assert a == rest + [last];
      RemainingIn(rest, quit);
      assert last !in rest;
    }
  }

  /** Cancelling a ticket takes it, and only it, out of the order. */
  lemma {:induction false} RemainingQuit(a: seq<Ticket>, quit: set<Ticket>, t: Ticket, g: seq<Ticket>, w: seq<Ticket>)
    requires Distinct(a) && Remaining(a, quit) == g + w && t in w && t !in g
    ensures Remaining(a, quit + {t}) == g + Without(w, t)
  {
    RemainingIn(a, quit);
    RemainingWithout(a, quit, t);
    WithoutBehind(g, w, t);
  }

  lemma {:induction false} RemainingWithout(a: seq<Ticket>, quit: set<Ticket>, t: Ticket)
    requires Distinct(a)
    ensures Remaining(a, quit + {t}) == Without(Remaining(a, quit), t)
  {
    if a != [] {
      var rest, last := a[..|a| - 1], a[|a| - 1];
      assert a == rest + [last];
      RemainingWithout(rest, quit, t);
      var r := Remaining(rest, quit);
      if last in quit {
        assert Remaining(a, quit) == r && Remaining(a, quit + {t}) == Remaining(rest, quit + {t});
      } else {
        RemainingIn(rest, quit);
        WithoutSnoc(r, last, t);
        assert Remaining(a, quit) == r + [last];
      }
    }
  }

  lemma {:induction false} WithoutSnoc(s: seq<Ticket>, x: Ticket, t: Ticket)
    requires x !in s
    ensures Without(s + [x], t) == if x == t then Without(s, t) else Without(s, t) + [x]
  {
    if s == [] {
      assert [x][1..] == [];
    } else {
      assert (s + [x])[1..] == s[1..] + [x];
      WithoutSnoc(s[1..], x, t);
      if x == t { WithoutAbsent(s, t); }
    }
  }

  lemma {:induction false} WithoutAbsent(s: seq<Ticket>, t: Ticket)
    requires t !in s
    ensures Without(s, t) == s
  {
    if s != [] { WithoutAbsent(s[1..], t); }
  }

  lemma {:induction false} WithoutBehind(g: seq<Ticket>, w: seq<Ticket>, t: Ticket)
    requires t !in g
    ensures Without(g + w, t) == g + Without(w, t)
  {
    if g == [] {
      assert g + w == w;
    } else {
      assert (g + w)[1..] == g[1..] + w;
      WithoutBehind(g[1..], w, t);
    }
  }

  lemma {:induction false} WithoutIn(s: seq<Ticket>, t: Ticket)
    requires Distinct(s)
    ensures forall x :: x in Without(s, t) <==> x in s && x != t
  {
    if s != [] {
      assert s == [s[0]] + s[1..];
      WithoutIn(s[1..], t);
    }
  }

  /** The waiting tickets are distinct and have not been granted. */
  lemma WaitersDistinct(q: Queue)
    requires Numbered(q) && Fifo(q)
    ensures Distinct(q.waiters) && forall t :: t in q.waiters ==> t !in q.granted
  {
    RemainingIn(q.arrivals, q.quit);
    var r := q.granted + q.waiters;
    assert forall i :: 0 <= i < |q.waiters| ==> q.waiters[i] == r[|q.granted| + i];
    assert forall i :: 0 <= i < |q.granted| ==> q.granted[i] == r[i];
  }

  lemma NumberedNext(q: Queue, p: Phase)
    requires Numbered(q)
    ensures Next(q) !in q.phase && |q.phase[Next(q) := p]| == |q.phase| + 1
  {
    assert q.phase[Next(q) := p].Keys == q.phase.Keys + {Next(q)};
  }

  /** Whatever phase the newcomer gets, and whether or not it queues, it is the next number. */
  lemma EnterNumbered(q: Queue, r: Queue, p: Phase)
    requires Numbered(q) && r.phase == q.phase[Next(q) := p] && r.quit == q.quit
    requires r.arrivals == q.arrivals || r.arrivals == q.arrivals + [Next(q)]
    ensures Numbered(r)
  {
    assert r.phase.Keys == q.phase.Keys + {Next(q)};
    assert Next(q) !in q.phase;
    assert |r.phase.Keys| == |q.phase| + 1;
    forall t: nat ensures t in r.phase <==> t < |r.phase| {
      assert t in r.phase <==> t in q.phase || t == Next(q);
    }
    forall i | 0 <= i < |q.arrivals| ensures q.arrivals[i] < Next(q) {
      assert q.arrivals[i] in q.arrivals;
    }
  }

  lemma EnterQueues(q: Queue)
    requires QueueExact(q) && Numbered(q)
    ensures QueueExact(Step(q, Enter).value)
  {
    hide Numbered;
    NumberedNext(q, Owner);
  }

  lemma EnterKeepsInv(q: Queue)
    requires Inv(q)
    ensures Step(q, Enter).Some? && Inv(Step(q, Enter).value)
  {
    hide QueueExact, Numbered, Fifo, Remaining;
    var r, t := Step(q, Enter).value, Next(q);
    NumberedNext(q, Owner);
    EnterQueues(q);
    EnterFifo(q, t);
    if q.free > 0 {
      EnterNumbered(q, r, Owner);
      assert Holders(r) == Holders(q) + {t};
    } else {
      EnterNumbered(q, r, Waiting);
      assert Holders(r) == Holders(q);
    }
  }

  lemma EnterFifo(q: Queue, t: Ticket)
    requires Fifo(q) && Numbered(q) && t == Next(q)
    ensures Fifo(Step(q, Enter).value)
  {
    if q.free <= 0 {
      assert (q.arrivals + [t])[..|q.arrivals|] == q.arrivals;
      assert q.granted + (q.waiters + [t]) == (q.granted + q.waiters) + [t];
    }
  }

  lemma SamePhases(q: Queue, t: Ticket, p: Phase)
    requires t in q.phase
    ensures |q.phase[t := p]| == |q.phase|
  {
    assert q.phase[t := p].Keys == q.phase.Keys;
  }

  lemma NoticeKeepsInv(q: Queue, t: Ticket)
    requires Inv(q) && Step(q, Notice(t)).Some?
    ensures Inv(Step(q, Notice(t)).value)
  {
    var r := Step(q, Notice(t)).value;
    SamePhases(q, t, Owner);
    assert Holders(r) == Holders(q);
  }

  lemma CancelKeepsInv(q: Queue, t: Ticket)
    requires Inv(q) && Step(q, Cancel(t)).Some?
    ensures Inv(Step(q, Cancel(t)).value)
  {
    var r := Step(q, Cancel(t)).value;
    SamePhases(q, t, r.phase[t]);
    assert Holders(r) == Holders(q);
    if t in q.waiters {
      WaitersDistinct(q);
      WithoutIn(q.waiters, t);
      RemainingQuit(q.arrivals, q.quit, t, q.granted, q.waiters);
    }
  }

  lemma HandOffQueues(q: Queue, t: Ticket)
    requires QueueExact(q) && Distinct(q.waiters) && t in q.phase && q.phase[t].Owner?
    ensures QueueExact(Step(q, Release(t)).value)
  {
    if q.waiters != [] { assert q.waiters == [q.waiters[0]] + q.waiters[1..]; }
  }

  lemma ReleaseNumbered(q: Queue, t: Ticket)
    requires Numbered(q) && QueueExact(q) && t in q.phase && q.phase[t].Owner?
    ensures Numbered(Step(q, Release(t)).value)
  {
    hide Distinct;
    SamePhases(q, t, Released);
    if q.waiters != [] {
      assert q.waiters[0] in q.phase;
      SamePhases(q.(phase := q.phase[t := Released]), q.waiters[0], Handed);
    }
  }

  lemma ReleaseKeepsInv(q: Queue, t: Ticket)
    requires Inv(q) && Step(q, Release(t)).Some?
    ensures Inv(Step(q, Release(t)).value)
  {
    hide Numbered, Distinct, Remaining;
    var r := Step(q, Release(t)).value;
    WaitersDistinct(q);
    HandOffQueues(q, t);
    ReleaseNumbered(q, t);
    if q.waiters != [] {
      var w := q.waiters[0];
      assert w in q.waiters;
      assert Holders(r) == Holders(q) - {t} + {w};
      assert q.granted + [w] + q.waiters[1..] == q.granted + q.waiters;
    } else {
      assert Holders(r) == Holders(q) - {t};
    }
  }

  // ---------------------------------------------------------------- every interleaving

  /** The state after a schedule; impossible steps are skipped. */
  function Play(n: int, schedule: seq<Action>): Queue {
    if schedule == [] then Start(n) else
      var q := Play(n, schedule[..|schedule| - 1]);
      match Step(q, schedule[|schedule| - 1]) case Some(r) => r case None => q
  }

  /** Whatever the order of entries, hand-offs noticed late, cancellations (also of a ticket that has
      just been handed a slot) and releases: slots are conserved, no slot is free while a ticket
      waits, and grants follow arrival order. */
  lemma {:induction false} EveryInterleaving(n: int, schedule: seq<Action>)
    ensures Inv(Play(n, schedule)) && Play(n, schedule).n == if n <= 0 then 1 else n
  {
    if schedule == [] {
      assert Holders(Start(n)) == {};
    } else {
      var q, a := Play(n, schedule[..|schedule| - 1]), schedule[|schedule| - 1];
      EveryInterleaving(n, schedule[..|schedule| - 1]);
      if Step(q, a).Some? {
        match a
        case Enter => EnterKeepsInv(q);
        case Notice(t) => NoticeKeepsInv(q, t);
        case Cancel(t) => CancelKeepsInv(q, t);
        case Release(t) => ReleaseKeepsInv(q, t);
      }
    }
  }

  /** `acquire` returns true exactly when the caller then owns a slot: a cancellation that loses the
      race against a hand-off keeps the slot instead of losing it. */
  lemma CancelReturnsHonestly(n: int, schedule: seq<Action>, t: Ticket)
    requires Step(Play(n, schedule), Cancel(t)).Some?
    ensures var q, r := Play(n, schedule), Step(Play(n, schedule), Cancel(t)).value;
            && r.phase[t].Owner? == (t !in q.waiters) == q.phase[t].Handed?
            && (t in Holders(r) <==> t in Holders(q))
            && |Holders(r)| == |Holders(q)|
  {
    EveryInterleaving(n, schedule);
    EveryInterleaving(n, schedule + [Cancel(t)]);
    assert (schedule + [Cancel(t)])[..|schedule|] == schedule;
    var q, r := Play(n, schedule), Step(Play(n, schedule), Cancel(t)).value;
    assert Holders(r) == Holders(q);
  }

  /** Two arrivals that did not cancel keep their order among the remaining ones. */
  lemma {:induction false} RemainingOrdered(a: seq<Ticket>, quit: set<Ticket>, i: nat, j: nat) returns (x: nat, y: nat)
    requires i < j < |a| && Distinct(a) && a[i] !in quit && a[j] !in quit
    ensures x < y < |Remaining(a, quit)| && Remaining(a, quit)[x] == a[i] && Remaining(a, quit)[y] == a[j]
  {
    var rest := a[..|a| - 1];
    if j < |a| - 1 {
      x, y := RemainingOrdered(rest, quit, i, j);
    } else {
      RemainingIn(rest, quit);
      assert rest[i] in rest;
      x :| 0 <= x < |Remaining(rest, quit)| && Remaining(rest, quit)[x] == a[i];
      y := |Remaining(rest, quit)|;
    }
  }

  /** First come, first served, said of two callers: once the later one has been handed a slot, the
      earlier one has been too, unless one of them gave up. */
  lemma GrantedInArrivalOrder(n: int, schedule: seq<Action>, i: nat, j: nat)
    requires i < j < |Play(n, schedule).arrivals|
    requires var q := Play(n, schedule);
             q.arrivals[i] !in q.quit && q.arrivals[j] !in q.quit && q.arrivals[j] in q.granted
    ensures Play(n, schedule).arrivals[i] in Play(n, schedule).granted
  {
    EveryInterleaving(n, schedule);
    hide Play, Conserved, QueueExact;
    var q := Play(n, schedule);
    var r := q.granted + q.waiters;
    var x, y := RemainingOrdered(q.arrivals, q.quit, i, j);
    RemainingIn(q.arrivals, q.quit);
    var g :| 0 <= g < |q.granted| && q.granted[g] == q.arrivals[j];
    assert r[g] == r[y] && g == y;
    assert r[x] == q.granted[x];
  }

  // ---------------------------------------------------------------- the code

  /** The shared fields; `View` adds the history. Each method is one critical section. */
  class SlotQueue {
    var free: int
    var waiters: seq<Ticket>
    ghost var hist: Queue

    ghost predicate Valid() reads this {
      Inv(hist) && hist.free == free && hist.waiters == waiters
    }

    constructor (n: int)
      ensures Valid() && hist == Start(n)
    {
      free := if n <= 0 then 1 else n;
      waiters := [];
      hist := Start(n);
      new;
      assert Holders(hist) == {};
    }

    /** Takes a free slot, or queues up. */
    method AcquireEnter(ch: Ticket) returns (acquired: bool)
      requires Valid() && ch == Next(hist)
      modifies this
      ensures Valid() && Some(hist) == Step(old(hist), Enter)
      ensures acquired == hist.phase[ch].Owner?
    {
      EnterKeepsInv(hist);
      hist := Step(hist, Enter).value;
      if free > 0 {
        free := free - 1;
        return true;
      }
      waiters := waiters + [ch];
      return false;
    }

    /** The context ended: leave the queue, or keep the slot that was handed over meanwhile. */
    method AcquireCancelled(ch: Ticket) returns (acquired: bool)
      requires Valid() && Step(hist, Cancel(ch)).Some?
      modifies this
      ensures Valid() && Some(hist) == Step(old(hist), Cancel(ch))
      ensures acquired == hist.phase[ch].Owner?
    {
      CancelKeepsInv(hist, ch);
      hist := Step(hist, Cancel(ch)).value;
      var removed := false;
      for i := 0 to |waiters|
        invariant waiters == old(waiters) && free == old(free) && hist == Step(old(hist), Cancel(ch)).value
        invariant ch !in waiters[..i] && !removed
      {
        if waiters[i] == ch {
          WithoutAt(waiters, i, ch);
          assert ch in waiters;
          waiters := waiters[..i] + waiters[i + 1..];
          removed := true;
          break;
        }
      }
      return !removed;
    }

    /** Hands the slot to the oldest waiter, or frees it. */
    method ReleaseSlot(ghost t: Ticket)
      requires Valid() && Step(hist, Release(t)).Some?
      modifies this
      ensures Valid() && Some(hist) == Step(old(hist), Release(t))
    {
      ReleaseKeepsInv(hist, t);
      hist := Step(hist, Release(t)).value;
      if |waiters| > 0 {
        waiters := waiters[1..];
        return;
      }
      free := free + 1;
    }
  }

  lemma {:induction false} WithoutAt(s: seq<Ticket>, i: nat, t: Ticket)
    requires i < |s| && s[i] == t && t !in s[..i]
    ensures Without(s, t) == s[..i] + s[i + 1..]
  {
    if i > 0 {
      assert s[0] in s[..i] && s[1..][..i - 1] == s[..i][1..];
      WithoutAt(s[1..], i - 1, t);
      assert s[1..][i..] == s[i + 1..];
    }
  }
}

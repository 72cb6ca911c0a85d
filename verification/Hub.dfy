/** The stream event hub: non-blocking broadcast and per-stream replay (core/hub/hub.go). An event is
    an arbitrary value with a stream name and a sequence number. */
module Hub {
  import opened Sequences
  import opened Tails

  const DEFAULT_BOUND: nat := 512

  /** Its stream ("" for broadcast only), the number its publisher gave it, and the rest. */
  datatype Event<T> = Event(stream: string, seqno: int, body: T)

  // ---------------------------------------------------------------- one subscriber queue

  /** Sending without blocking. On a full queue the consumer may take `raced` events between the
      failed send and the drop of the oldest one. */
  function Offer<E>(queue: seq<E>, bound: nat, ev: E, raced: nat): (r: seq<E>)
    requires 0 < bound && |queue| <= bound
    ensures |r| <= bound && r != [] && r[|r| - 1] == ev
  {
    if |queue| < bound then queue + [ev] else
      var left := if raced <= |queue| then queue[raced..] else [];
      (if left != [] then left[1..] else left) + [ev]
  }

  ghost predicate Suffix<E>(s: seq<E>, all: seq<E>) { |s| <= |all| && s == all[|all| - |s|..] }

  /** The queue stays a suffix of what was sent: nothing is reordered, and only oldest events go. */
  lemma OfferKeepsSuffix<E>(queue: seq<E>, sent: seq<E>, bound: nat, ev: E, raced: nat)
    requires 0 < bound && |queue| <= bound && Suffix(queue, sent)
    ensures Suffix(Offer(queue, bound, ev, raced), sent + [ev])
  {
  }

  /** What the consumer takes while its full queue is being served. */
  function Took<E>(queue: seq<E>, bound: nat, raced: nat): seq<E> {
    if |queue| < bound then [] else if raced <= |queue| then queue[..raced] else queue
  }

  /** What a send leaves out: one event, the oldest that the consumer did not take from a full queue. */
  function Lost<E>(queue: seq<E>, bound: nat, raced: nat): seq<E> {
    if |queue| < bound || raced >= |queue| then [] else [queue[raced]]
  }

  /** Nothing else is lost, and nothing is reordered or repeated. */
  lemma OfferConserves<E>(queue: seq<E>, bound: nat, ev: E, raced: nat)
    requires 0 < bound && |queue| <= bound
    ensures var took, lost := Took(queue, bound, raced), Lost(queue, bound, raced);
            && took + lost <= queue
            && Offer(queue, bound, ev, raced) == queue[|took| + |lost|..] + [ev]
  {
  }

  lemma OmitMiddle<E>(front: seq<E>, lost: seq<E>, rest: seq<E>, sent: seq<E>)
    requires Subsequence(front + lost + rest, sent)
    ensures Subsequence(front + rest, sent)
  {
    hide Subsequence;
    SubsequenceSelf(rest);
    SubsequenceDropFront(rest, lost, rest);
    SubsequenceKeepFront(front, rest, lost + rest);
    assert front + (lost + rest) == front + lost + rest;
    SubsequenceTransitive(front + rest, front + lost + rest, sent);
  }

  lemma Regroup<E>(a: seq<E>, b: seq<E>, c: seq<E>, d: seq<E>)
    ensures a + (b + c + d) == a + b + c + d
  {
  }

  /** What was received and what is queued stays drawn, in order, from what was sent. */
  lemma OfferKeepsOrder<E>(got: seq<E>, queue: seq<E>, sent: seq<E>, bound: nat, ev: E, raced: nat)
    requires 0 < bound && |queue| <= bound && Subsequence(got + queue, sent)
    ensures Subsequence(got + Took(queue, bound, raced) + Offer(queue, bound, ev, raced), sent + [ev])
  {
    hide Offer, Subsequence, Took, Lost;
    var took, lost := Took(queue, bound, raced), Lost(queue, bound, raced);
    OfferConserves(queue, bound, ev, raced);
    var rest := queue[|took| + |lost|..];
    assert queue == took + lost + rest;
    Regroup(got, took, lost, rest);
    OmitMiddle(got + took, lost, rest, sent);
    SubsequenceKeepBack(got + took + rest, sent, [ev]);
    assert got + took + (rest + [ev]) == got + took + rest + [ev];
  }

  // ---------------------------------------------------------------- replay

  /** The events after a watermark, in publish order. */
  function After<T>(events: seq<Event<T>>, mark: int): seq<Event<T>> {
    if events == [] then [] else
      var rest, last := After(events[..|events| - 1], mark), events[|events| - 1];
      if last.seqno > mark then rest + [last] else rest
  }

  function Later<T>(mark: int): Event<T> -> bool { (e: Event<T>) => e.seqno > mark }

  /** Exactly those with a higher number than the watermark, in publish order, whatever the numbers. */
  lemma {:induction false} AfterFilters<T>(events: seq<Event<T>>, mark: int)
    ensures Filters(After(events, mark), events, Later(mark))
  {
    hide Filters;
    if events == [] {
      FiltersNothing(Later<T>(mark));
    } else {
      var n := |events| - 1;
      assert events == events[..n] + [events[n]];
      AfterFilters(events[..n], mark);
      FiltersSnoc(After(events[..n], mark), events[..n], Later(mark), events[n]);
    }
  }

  /** The caller's contract: sequence numbers of a stream increase. */
  ghost predicate Increasing<T>(events: seq<Event<T>>) {
    forall i, j :: 0 <= i < j < |events| ==> events[i].seqno < events[j].seqno
  }

  /** How many events are at or below the watermark. */
  function Passed<T>(events: seq<Event<T>>, mark: int): (k: nat)
    ensures k <= |events|
  {
    if events == [] then 0
    else Passed(events[..|events| - 1], mark) + (if events[|events| - 1].seqno > mark then 0 else 1)
  }

  /** Exactly the events from `k` on are after the watermark. */
  ghost predicate SplitsAt<T>(events: seq<Event<T>>, mark: int, k: nat) {
    k <= |events| && forall i :: 0 <= i < |events| ==> (events[i].seqno > mark <==> i >= k)
  }

  lemma SplitsNext<T>(rest: seq<Event<T>>, last: Event<T>, mark: int, k: nat)
    requires SplitsAt(rest, mark, k) && (rest != [] ==> rest[|rest| - 1].seqno < last.seqno)
    ensures var p := if last.seqno > mark then k else k + 1;
            && SplitsAt(rest + [last], mark, p)
            && rest[k..] + (if last.seqno > mark then [last] else []) == (rest + [last])[p..]
  {
    assert last.seqno <= mark ==> k == |rest|;
  }

  lemma {:induction false} AfterIsSuffix<T>(events: seq<Event<T>>, mark: int)
    requires Increasing(events)
    ensures SplitsAt(events, mark, Passed(events, mark))
    ensures After(events, mark) == events[Passed(events, mark)..]
  {
    hide Increasing, SplitsAt;
    if events == [] {
      SplitsNothing<T>(mark);
    } else {
      var rest, last := events[..|events| - 1], events[|events| - 1];
      assert events == rest + [last];
      IncreasingParts(rest, [last]);
      AfterIsSuffix(rest, mark);
      SplitsNext(rest, last, mark, Passed(rest, mark));
    }
  }

  lemma SplitsNothing<T>(mark: int)
    ensures SplitsAt<T>([], mark, 0)
  {
  }

  /** With increasing numbers, replaying the retained tail gives every event after the watermark that
      the bound has not evicted: the newest `bound` of them. */
  lemma ReplayIsCatchUp<T>(events: seq<Event<T>>, mark: int, bound: nat)
    requires Increasing(events)
    ensures After(Tail(events, bound), mark) == Tail(After(events, mark), bound)
  {
    hide After, Passed, Increasing, Tail;
    var kept := Tail(events, bound);
    assert events == events[..|events| - |kept|] + kept;
    IncreasingParts(events[..|events| - |kept|], kept);
    AfterIsSuffix(events, mark);
    AfterIsSuffix(kept, mark);
    PassedOfTail(events, mark, bound);
    TailOfSuffix(events, Passed(events, mark), bound);
  }

  lemma {:induction false} PassedParts<T>(front: seq<Event<T>>, kept: seq<Event<T>>, mark: int)
    ensures Passed(front + kept, mark) == Passed(front, mark) + Passed(kept, mark)
  {
    if kept == [] {
      assert front + kept == front;
    } else {
      assert (front + kept)[..|front + kept| - 1] == front + kept[..|kept| - 1];
      PassedParts(front, kept[..|kept| - 1], mark);
    }
  }

  lemma IncreasingParts<T>(front: seq<Event<T>>, kept: seq<Event<T>>)
    requires Increasing(front + kept)
    ensures Increasing(front) && Increasing(kept)
    ensures front != [] && kept != [] ==> front[|front| - 1].seqno < kept[0].seqno
  {
    var all := front + kept;
    forall i, j | 0 <= i < j < |front| ensures front[i].seqno < front[j].seqno {
      assert all[i] == front[i] && all[j] == front[j];
    }
    forall i, j | 0 <= i < j < |kept| ensures kept[i].seqno < kept[j].seqno {
      assert all[|front| + i] == kept[i] && all[|front| + j] == kept[j];
    }
    if front != [] && kept != [] { assert all[|front| - 1] == front[|front| - 1] && all[|front|] == kept[0]; }
  }

  /** Once an event of the kept part is passed, everything in front of it is. */
  lemma PassedFront<T>(front: seq<Event<T>>, kept: seq<Event<T>>, mark: int)
    requires Increasing(front + kept)
    ensures Passed(kept, mark) > 0 ==> Passed(front, mark) == |front|
  {
    hide After, Passed, Increasing;
    IncreasingParts(front, kept);
    AfterIsSuffix(front, mark);
    AfterIsSuffix(kept, mark);
  }

  lemma PassedOfTail<T>(events: seq<Event<T>>, mark: int, bound: nat)
    requires Increasing(events)
    ensures var p, cut := Passed(events, mark), |events| - |Tail(events, bound)|;
            Passed(Tail(events, bound), mark) == if p >= cut then p - cut else 0
  {
    hide After, Passed, Increasing, Tail;
    var kept := Tail(events, bound);
    var front := events[..|events| - |kept|];
    assert events == front + kept;
    PassedParts(front, kept, mark);
    PassedFront(front, kept, mark);
  }

  // ---------------------------------------------------------------- the hub

  class Hub<T> {
    const subBuffer: nat
    const replayCap: nat
    var next: nat
    var subs: map<nat, seq<Event<T>>>
    var recent: map<string, seq<Event<T>>>
    /** Per subscriber, everything published since it subscribed and everything its consumer took; per
        stream, everything published since the stream was last forgotten. */
    ghost var sent: map<nat, seq<Event<T>>>
    ghost var got: map<nat, seq<Event<T>>>
    ghost var stream: map<string, seq<Event<T>>>

    ghost predicate Valid() reads this {
      && subBuffer > 0 && replayCap > 0
      && Queues(subs, sent, subBuffer, next)
      && InOrder(got, subs, sent)
      && Retained(recent, stream, replayCap)
    }

    constructor (subBuffer: int, replayCap: int)
      ensures Valid() && sent == map[] && got == map[] && stream == map[]
      ensures this.subBuffer == (if subBuffer <= 0 then DEFAULT_BOUND else subBuffer)
      ensures this.replayCap == (if replayCap <= 0 then DEFAULT_BOUND else replayCap)
    {
      this.subBuffer := if subBuffer <= 0 then DEFAULT_BOUND else subBuffer;
      this.replayCap := if replayCap <= 0 then DEFAULT_BOUND else replayCap;
      next, subs, recent, sent, got, stream := 0, map[], map[], map[], map[], map[];
    }

    /** Retains the event if it names a stream, then offers it to every subscriber; `raced` says how
        many events each consumer takes while its full queue is being served. */
    method Publish(ev: Event<T>, raced: nat -> nat)
      requires Valid()
      modifies this
      ensures Valid() && next == old(next)
      ensures stream == if ev.stream == "" then old(stream) else Extended(old(stream), ev.stream, ev)
      ensures sent == Reached(old(sent), ev) && subs.Keys == old(subs).Keys
      ensures forall id :: id in subs ==> subs[id] == Offer(old(subs)[id], subBuffer, ev, raced(id))
      ensures got == Received(old(got), old(subs), subBuffer, raced)
    {
      hide Offer, Suffix, InOrder, Queues, Retained, Received, Reached, Extended;
      Retain(ev);
      Deliver(ev, raced);
    }

    method Retain(ev: Event<T>)
      requires replayCap > 0 && Retained(recent, stream, replayCap)
      modifies this`recent, this`stream
      ensures stream == if ev.stream == "" then old(stream) else Extended(old(stream), ev.stream, ev)
      ensures Retained(recent, stream, replayCap)
    {
      hide Retained, Extended, Tail;
      var sid := ev.stream;
      if sid != "" {
        RetainedExtends(recent, stream, replayCap, sid, ev);
        var buf := Grow(if sid in recent then recent[sid] else [], ev);
        recent := recent[sid := buf];
        stream := Extended(stream, sid, ev);
      }
    }

    /** A replay buffer with one more event, cut to the newest `replayCap`. */
    method Grow(kept: seq<Event<T>>, ev: Event<T>) returns (buf: seq<Event<T>>)
      ensures buf == Tail(kept + [ev], replayCap)
    {
      buf := kept + [ev];
      if |buf| > replayCap { buf := buf[|buf| - replayCap..]; }
    }

    method Deliver(ev: Event<T>, raced: nat -> nat)
      requires subBuffer > 0 && Queues(subs, sent, subBuffer, next)
      requires InOrder(got, subs, sent)
      modifies this`subs, this`sent, this`got
      ensures Queues(subs, sent, subBuffer, next) && InOrder(got, subs, sent)
      ensures sent == Reached(old(sent), ev) && subs.Keys == old(subs).Keys
      ensures forall id :: id in subs ==> subs[id] == Offer(old(subs)[id], subBuffer, ev, raced(id))
      ensures got == Received(old(got), old(subs), subBuffer, raced)
    {
      hide Offer, Suffix, Reached, InOrder, Received;
      var ids := subs.Keys;
      while ids != {}
        invariant ids <= subs.Keys == old(subs).Keys && sent == old(sent) && got == old(got)
        invariant forall id :: id in ids ==> subs[id] == old(subs)[id]
        invariant forall id :: id in subs && id !in ids ==> subs[id] == Offer(old(subs)[id], subBuffer, ev, raced(id))
      {
        var id :| id in ids;
        assert id in old(subs) && |subs[id]| <= subBuffer;
        var ch := Send(subs[id], ev, raced(id));
        subs := subs[id := ch];
        ids := ids - {id};
      }
      OffersKeepQueues(old(subs), sent, subBuffer, next, ev, raced, subs);
      OffersKeepOrder(got, old(subs), sent, subBuffer, next, ev, raced, subs);
      sent := Reached(sent, ev);
      got := Received(got, old(subs), subBuffer, raced);
    }

    /** One non-blocking send. */
    method Send(queue: seq<Event<T>>, ev: Event<T>, raced: nat) returns (ch: seq<Event<T>>)
      requires subBuffer > 0 && |queue| <= subBuffer
      ensures ch == Offer(queue, subBuffer, ev, raced)
    {
      if |queue| < subBuffer { return queue + [ev]; }
      ch := if raced <= |queue| then queue[raced..] else [];
      if ch != [] { ch := ch[1..]; }
      ch := ch + [ev];
    }

    method Subscribe() returns (id: nat)
      requires Valid()
      modifies this
      ensures Valid() && id !in old(subs) && next == id
      ensures subs == old(subs)[id := []] && sent == old(sent)[id := []] && got == old(got)[id := []]
      ensures recent == old(recent) && stream == old(stream)
    {
      hide Queues, Retained, InOrder;
      JoinKeeps(got, subs, sent, subBuffer, next);
      next := next + 1;
      id := next;
      subs := subs[id := []];
      sent := sent[id := []];
      got := got[id := []];
    }

    method Unsubscribe(id: nat)
      requires Valid()
      modifies this
      ensures Valid() && subs == old(subs) - {id} && sent == old(sent) - {id} && got == old(got) - {id}
      ensures next == old(next) && recent == old(recent) && stream == old(stream)
    {
      hide Queues, Retained, InOrder;
      LeaveKeeps(got, subs, sent, subBuffer, next, id);
      subs := subs - {id};
      sent := sent - {id};
      got := got - {id};
    }

    /** The consumer takes the oldest queued event. */
    method Receive(id: nat) returns (ev: Event<T>)
      requires Valid() && id in subs && subs[id] != []
      modifies this
      ensures Valid() && ev == old(subs)[id][0] && subs == old(subs)[id := old(subs)[id][1..]]
      ensures id in old(got) && got == old(got)[id := old(got)[id] + [ev]]
      ensures next == old(next) && recent == old(recent) && stream == old(stream) && sent == old(sent)
    {
      hide Queues, Retained, InOrder;
      TakeKeepsQueues(subs, sent, subBuffer, next, id);
      TakeKeepsOrder(got, subs, sent, id);
      ev := subs[id][0];
      subs, got := subs[id := subs[id][1..]], got[id := got[id] + [ev]];
    }

    /** The retained events of a stream after a watermark; all of them that the bound has not evicted
        when the caller numbers its events in increasing order. */
    method Replay(streamID: string, afterSeq: int) returns (out: seq<Event<T>>)
      requires Valid()
      ensures streamID == "" || streamID !in stream ==> out == []
      ensures streamID != "" && streamID in stream ==> out == After(Tail(stream[streamID], replayCap), afterSeq)
      ensures streamID != "" && streamID in stream && Increasing(stream[streamID])
              ==> out == Tail(After(stream[streamID], afterSeq), replayCap)
    {
      out := [];
      if streamID == "" || streamID !in recent { return; }
      var buf := recent[streamID];
      for i := 0 to |buf|
        invariant out == After(buf[..i], afterSeq)
      {
        assert buf[..i + 1][..i] == buf[..i];
        if buf[i].seqno > afterSeq { out := out + [buf[i]]; }
      }
      assert buf[..|buf|] == buf;
      if Increasing(stream[streamID]) { ReplayIsCatchUp(stream[streamID], afterSeq, replayCap); }
    }

    method Forget(streamID: string)
      requires Valid()
      modifies this
      ensures Valid() && stream == if streamID == "" then old(stream) else old(stream) - {streamID}
      ensures next == old(next) && subs == old(subs) && sent == old(sent) && got == old(got)
    {
      if streamID == "" { return; }
      recent := recent - {streamID};
      stream := stream - {streamID};
    }
  }

  ghost function Extended<E>(stream: map<string, seq<E>>, sid: string, ev: E): map<string, seq<E>> {
    stream[sid := (if sid in stream then stream[sid] else []) + [ev]]
  }

  /** Every subscriber queue is within its bound and is a suffix of what was sent to it. */
  ghost predicate Queues<E>(subs: map<nat, seq<E>>, sent: map<nat, seq<E>>, bound: nat, next: nat) {
    && subs.Keys == sent.Keys
    && (forall id :: id in subs ==> id <= next && |subs[id]| <= bound)
    && (forall id :: id in subs ==> Suffix(subs[id], sent[id]))
  }

  /** What a subscriber received, followed by its queue, is drawn in order from what was sent to it. */
  ghost predicate InOrder<E>(got: map<nat, seq<E>>, subs: map<nat, seq<E>>, sent: map<nat, seq<E>>) {
    && got.Keys == subs.Keys == sent.Keys
    && forall id :: id in subs ==> Subsequence(got[id] + subs[id], sent[id])
  }

  ghost function Received<E>(got: map<nat, seq<E>>, subs: map<nat, seq<E>>, bound: nat, raced: nat -> nat): map<nat, seq<E>> {
    map id | id in got && id in subs :: got[id] + Took(subs[id], bound, raced(id))
  }

  /** Every replay buffer is the newest part of its stream. */
  ghost predicate Retained<E>(recent: map<string, seq<E>>, stream: map<string, seq<E>>, bound: nat) {
    && recent.Keys == stream.Keys
    && forall sid :: sid in recent ==> recent[sid] == Tail(stream[sid], bound)
  }

  lemma TakeKeepsQueues<E>(subs: map<nat, seq<E>>, sent: map<nat, seq<E>>, bound: nat, next: nat, id: nat)
    requires Queues(subs, sent, bound, next) && id in subs && subs[id] != []
    ensures Queues(subs[id := subs[id][1..]], sent, bound, next)
  {
    assert Suffix(subs[id][1..], sent[id]);
    hide Suffix;
    assert subs[id := subs[id][1..]].Keys == subs.Keys;
  }

  lemma MoveOne<E>(got: seq<E>, queue: seq<E>)
    requires queue != []
    ensures got + [queue[0]] + queue[1..] == got + queue
  {
  }

  lemma JoinKeeps<E>(got: map<nat, seq<E>>, subs: map<nat, seq<E>>, sent: map<nat, seq<E>>, bound: nat, next: nat)
    requires Queues(subs, sent, bound, next) && InOrder(got, subs, sent)
    ensures next + 1 !in subs
    ensures Queues(subs[next + 1 := []], sent[next + 1 := []], bound, next + 1)
    ensures InOrder(got[next + 1 := []], subs[next + 1 := []], sent[next + 1 := []])
  {
    var s, t := subs[next + 1 := []], sent[next + 1 := []];
    assert s.Keys == t.Keys == subs.Keys + {next + 1};
    assert Suffix(s[next + 1], t[next + 1]);
    hide Suffix, Subsequence;
    SubsequenceSelf<E>([]);
    assert s[next + 1] + s[next + 1] == [];
    assert got[next + 1 := []].Keys == s.Keys;
  }

  lemma LeaveKeeps<E>(got: map<nat, seq<E>>, subs: map<nat, seq<E>>, sent: map<nat, seq<E>>, bound: nat, next: nat, id: nat)
    requires Queues(subs, sent, bound, next) && InOrder(got, subs, sent)
    ensures Queues(subs - {id}, sent - {id}, bound, next) && InOrder(got - {id}, subs - {id}, sent - {id})
  {
    hide Suffix, Subsequence;
    assert (subs - {id}).Keys == subs.Keys - {id} == (sent - {id}).Keys == (got - {id}).Keys;
  }

  lemma TakeKeepsOrder<E>(got: map<nat, seq<E>>, subs: map<nat, seq<E>>, sent: map<nat, seq<E>>, id: nat)
    requires InOrder(got, subs, sent) && id in subs && subs[id] != []
    ensures id in got && InOrder(got[id := got[id] + [subs[id][0]]], subs[id := subs[id][1..]], sent)
  {
    hide Subsequence;
    assert subs[id := subs[id][1..]].Keys == subs.Keys && got[id := got[id] + [subs[id][0]]].Keys == got.Keys;
    MoveOne(got[id], subs[id]);
  }

  ghost function Reached<E>(sent: map<nat, seq<E>>, ev: E): map<nat, seq<E>> { map id | id in sent :: sent[id] + [ev] }

  lemma OffersKeepQueues<E>(subs: map<nat, seq<E>>, sent: map<nat, seq<E>>, bound: nat, next: nat,
                            ev: E, raced: nat -> nat, after: map<nat, seq<E>>)
    requires bound > 0 && Queues(subs, sent, bound, next) && after.Keys == subs.Keys
    requires forall id :: id in after ==> after[id] == Offer(subs[id], bound, ev, raced(id))
    ensures Queues(after, Reached(sent, ev), bound, next)
  {
    hide Offer, Suffix;
    assert forall id :: id in subs <==> id in sent;
    forall id | id in after
      ensures id <= next && |after[id]| <= bound && Suffix(after[id], Reached(sent, ev)[id])
    {
      OfferKeepsSuffix(subs[id], sent[id], bound, ev, raced(id));
    }
  }

  lemma OffersKeepOrder<E>(got: map<nat, seq<E>>, subs: map<nat, seq<E>>, sent: map<nat, seq<E>>, bound: nat, next: nat,
                           ev: E, raced: nat -> nat, after: map<nat, seq<E>>)
    requires bound > 0 && Queues(subs, sent, bound, next) && InOrder(got, subs, sent) && after.Keys == subs.Keys
    requires forall id :: id in after ==> after[id] == Offer(subs[id], bound, ev, raced(id))
    ensures InOrder(Received(got, subs, bound, raced), after, Reached(sent, ev))
  {
    hide Offer, Suffix, Took, Subsequence;
    assert forall id :: (id in subs <==> id in sent) && (id in subs <==> id in got);
    forall id | id in after
      ensures Subsequence(Received(got, subs, bound, raced)[id] + after[id], Reached(sent, ev)[id])
    {
      OfferKeepsOrder(got[id], subs[id], sent[id], bound, ev, raced(id));
    }
  }

  lemma RetainedGrows<E>(recent: map<string, seq<E>>, stream: map<string, seq<E>>, bound: nat, sid: string, grown: seq<E>)
    requires Retained(recent, stream, bound)
    ensures Retained(recent[sid := Tail(grown, bound)], stream[sid := grown], bound)
  {
    hide Tail;
    assert recent[sid := Tail(grown, bound)].Keys == recent.Keys + {sid} == stream[sid := grown].Keys;
  }

  lemma RetainedExtends<E>(recent: map<string, seq<E>>, stream: map<string, seq<E>>, bound: nat, sid: string, ev: E)
    requires Retained(recent, stream, bound)
    ensures Retained(recent[sid := Tail((if sid in recent then recent[sid] else []) + [ev], bound)],
                     Extended(stream, sid, ev), bound)
  {
    hide Retained, Tail;
    BufferGrows(recent, stream, bound, sid, ev);
    RetainedGrows(recent, stream, bound, sid, (if sid in stream then stream[sid] else []) + [ev]);
  }

  /** Appending to the retained part and cutting gives the retained part of the grown stream. */
  lemma BufferGrows<E>(recent: map<string, seq<E>>, stream: map<string, seq<E>>, bound: nat, sid: string, ev: E)
    requires Retained(recent, stream, bound)
    ensures Tail((if sid in recent then recent[sid] else []) + [ev], bound)
         == Tail((if sid in stream then stream[sid] else []) + [ev], bound)
  {
    assert sid in recent.Keys <==> sid in stream.Keys;
    if sid in stream { TailAppend(stream[sid], [ev], bound); }
  }
}

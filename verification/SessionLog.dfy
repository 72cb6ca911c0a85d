/** The append-only session log and its incrementally maintained projection, the surface
    (core/session/log.go). */
module SessionLog {
  import opened Options
  import opened Sequences

  type Message = string

  /** Surface operations are plain integers in a record; any other value behaves as log-only. */
  const APPEND := 0
  const REPLACE := 1
  const LOG_ONLY := 2

  datatype Event = Event(seq_: int, kind: string, op: int, sourceFrom: int, sourceTo: int, msg: Option<Message>)

  datatype Node = Node(seq_: int, kind: string, msg: Option<Message>)

  datatype LogError = Closed | SeqAssigned | SurfaceRange | NotEmpty | NotContiguous

  datatype Result<+T> = Ok(value: T) | Err(error: LogError)

  function NodeOf(e: Event): Node { Node(e.seq_, e.kind, e.msg) }

  // ---------------------------------------------------------------- the replacement rule

  /** Position of the first node with sequence number `from`, or the length if there is none. */
  function IndexOf(s: seq<Node>, from: int): (i: nat)
    ensures i <= |s|
    ensures i < |s| ==> s[i].seq_ == from
    ensures forall j :: 0 <= j < i ==> s[j].seq_ != from
  {
    if s == [] || s[0].seq_ == from then 0 else 1 + IndexOf(s[1..], from)
  }

  /** Length of the longest prefix with sequence numbers in [from, to]. */
  function RunLength(s: seq<Node>, from: int, to: int): (k: nat)
    ensures k <= |s|
    ensures forall j :: 0 <= j < k ==> from <= s[j].seq_ <= to
    ensures k < |s| ==> !(from <= s[k].seq_ <= to)
  {
    if s == [] || !(from <= s[0].seq_ <= to) then 0 else 1 + RunLength(s[1..], from, to)
  }

  /** Where the shadowed run of a replacement stands: its first position, if it is acceptable. */
  function RunAt(s: seq<Node>, from: int, to: int): (r: Option<nat>)
    ensures r.Some? ==> 0 < from <= to && r.value + (to - from + 1) <= |s|
  {
    var i := IndexOf(s, from);
    if from <= 0 || to < from || i == |s| || RunLength(s[i..], from, to) != to - from + 1 then None else Some(i)
  }

  function Replace(s: seq<Node>, from: int, to: int, n: Node): Option<seq<Node>> {
    match RunAt(s, from, to)
    case None => None
    case Some(i) => Some(s[..i] + [n] + s[i + (to - from + 1)..])
  }

  /** One record's effect on the surface; None is a rejected replacement. */
  function Apply(s: seq<Node>, e: Event): Option<seq<Node>> {
    if e.op == APPEND then Some(s + [NodeOf(e)])
    else if e.op == REPLACE then Replace(s, e.sourceFrom, e.sourceTo, NodeOf(e))
    else Some(s)
  }

  /** The surface rebuilt from scratch. */
  function Replay(es: seq<Event>): Option<seq<Node>> {
    if es == [] then Some([])
    else match Replay(es[..|es| - 1])
         case None => None
         case Some(s) => Apply(s, es[|es| - 1])
  }

  ghost predicate Contiguous(es: seq<Event>) {
    forall i :: 0 <= i < |es| ==> es[i].seq_ == i + 1
  }

  /** What `Restore` accepts. */
  ghost predicate Restorable(es: seq<Event>) { Contiguous(es) && Replay(es).Some? }

  // ---------------------------------------------------------------- the class

  /** Shadows the inclusive range [from, to], or refuses; the scan of `applyReplaceScratch`. */
  method ApplyReplaceScratch(surface: seq<Node>, from: int, to: int, replacement: Node) returns (r: Result<seq<Node>>)
    ensures r == match Replace(surface, from, to, replacement) case Some(s) => Ok(s) case None => Err(SurfaceRange)
  {
    hide IndexOf, RunLength;
    if from <= 0 || to < from { return Err(SurfaceRange); }
    var startIdx := -1;
    for i := 0 to |surface|
      invariant startIdx == -1
      invariant forall j :: 0 <= j < i ==> surface[j].seq_ != from
    {
      if surface[i].seq_ == from {
        startIdx := i;
        break;
      }
    }
    if startIdx < 0 { return Err(SurfaceRange); }
    FirstIs(surface, from, startIdx);
    var want := to - from + 1;
    var shadowed := 0;
    var i := startIdx;
    while i < |surface|
      invariant startIdx <= i <= |surface| && shadowed == i - startIdx
      invariant forall j :: startIdx <= j < i ==> from <= surface[j].seq_ <= to
    {
      if from <= surface[i].seq_ <= to {
        shadowed, i := shadowed + 1, i + 1;
        continue;
      }
      break;
    }
    RunIs(surface[startIdx..], from, to, shadowed);
    if shadowed != want { return Err(SurfaceRange); }
    r := Ok(surface[..startIdx] + [replacement] + surface[startIdx + shadowed..]);
  }

  lemma FirstIs(s: seq<Node>, from: int, i: nat)
    requires i < |s| && s[i].seq_ == from && forall j :: 0 <= j < i ==> s[j].seq_ != from
    ensures IndexOf(s, from) == i
  {
  }

  lemma RunIs(s: seq<Node>, from: int, to: int, k: nat)
    requires k <= |s| && (forall j :: 0 <= j < k ==> from <= s[j].seq_ <= to)
    requires k < |s| ==> !(from <= s[k].seq_ <= to)
    ensures RunLength(s, from, to) == k
  {
  }

  class Log {
    var closed: bool
    var seq_: int
    var events: seq<Event>
    var surface: seq<Node>

    ghost function Value(): LogValue reads this { LogValue(events, surface) }

    /** The watermark counts the records, and the surface is exactly what replaying them gives. */
    ghost predicate Valid() reads this {
      seq_ == |events| && Contiguous(events) && Replay(events) == Some(surface)
    }

    constructor ()
      ensures Valid() && !closed && events == [] && surface == []
    {
      closed, seq_, events, surface := false, 0, [], [];
    }

    /** Commits one record, or changes nothing. */
    method Append(e: Event) returns (r: Result<Event>)
      requires Valid()
      modifies this
      ensures Valid() && closed == old(closed)
      ensures var c := e.(seq_ := old(seq_) + 1);
              r == if old(closed) then Err(Closed)
                   else if e.seq_ != 0 then Err(SeqAssigned)
                   else if Apply(old(surface), c).None? then Err(SurfaceRange) else Ok(c)
      ensures r.Ok? ==> events == old(events) + [r.value] && Some(surface) == Apply(old(surface), r.value)
      ensures r.Err? ==> seq_ == old(seq_) && events == old(events) && surface == old(surface)
      ensures !closed ==> Value() == Offered(old(Value()), e)
    {
      if closed { return Err(Closed); }
      if e.seq_ != 0 { return Err(SeqAssigned); }
      seq_ := seq_ + 1;
      var c := e.(seq_ := seq_);
      events := events + [c];
      assert events[..|events| - 1] == old(events);
      if c.op == APPEND {
        surface := surface + [NodeOf(c)];
      } else if c.op == REPLACE {
        var next := ApplyReplaceScratch(surface, c.sourceFrom, c.sourceTo, NodeOf(c));
        if next.Err? {
          // Roll back the commit: the surface must never diverge from the log.
          seq_ := seq_ - 1;
          events := events[..|events| - 1];
          return Err(next.error);
        }
        surface := next.value;
      }
      r := Ok(c);
    }

    /** Rebuilds an empty log from persisted records, or changes nothing. */
    method Restore(es: seq<Event>) returns (r: Result<()>)
      requires Valid()
      modifies this
      ensures Valid() && closed == old(closed)
      ensures r.Ok? <==> !old(closed) && old(events) == [] && Restorable(es)
      ensures r.Ok? ==> seq_ == |es| && events == es && Replay(es) == Some(surface)
      ensures r.Err? ==> seq_ == old(seq_) && events == old(events) && surface == old(surface)
    {
      if closed { return Err(Closed); }
      if |events| != 0 || seq_ != 0 { return Err(NotEmpty); }
      for i := 0 to |es|
        invariant forall j :: 0 <= j < i ==> es[j].seq_ == j + 1
      {
        if es[i].seq_ != i + 1 { return Err(NotContiguous); }
      }
      var scratch: seq<Node> := [];
      for i := 0 to |es|
        invariant unchanged(this)
        invariant Replay(es[..i]) == Some(scratch)
      {
        var e := es[i];
        assert es[..i + 1][..i] == es[..i];
        if e.op == APPEND {
          scratch := scratch + [NodeOf(e)];
        } else if e.op == REPLACE {
          var next := ApplyReplaceScratch(scratch, e.sourceFrom, e.sourceTo, NodeOf(e));
          if next.Err? {
            PrefixRejected(es, i + 1);
            return Err(next.error);
          }
          scratch := next.value;
        }
      }
      assert es[..|es|] == es && events + es == es;
      seq_ := |es|;
      events := events + es;
      surface := scratch;
      r := Ok(());
    }

    /** The model-visible history: the messages of the surface, in surface order. */
    method DeriveMessages() returns (out: seq<Message>)
      ensures Derives(surface, out)
    {
      out := [];
      DerivesNothing();
      for i := 0 to |surface|
        invariant Derives(surface[..i], out)
      {
        DerivesNext(surface, i, out);
        if surface[i].msg.Some? { out := out + [surface[i].msg.value]; }
      }
      assert surface[..|surface|] == surface;
    }

    method Close()
      requires Valid()
      modifies this`closed
      ensures closed && Valid()
    {
      closed := true;
    }
  }

  /** `out` lists the messages found at the positions `at`, which are all that have one. */
  ghost predicate DerivesAt(s: seq<Node>, out: seq<Message>, at: seq<nat>) {
    && Rising(at, |s|) && |at| == |out|
    && (forall j :: 0 <= j < |at| ==> s[at[j]].msg == Some(out[j]))
    && (forall i: nat :: i < |s| && s[i].msg.Some? ==> i in at)
  }

  /** The messages of a surface, in its order. */
  ghost predicate Derives(s: seq<Node>, out: seq<Message>) { exists at :: DerivesAt(s, out, at) }

  lemma DerivesNothing()
    ensures Derives([], [])
  {
    assert DerivesAt([], [], []);
  }

  lemma DerivesNext(s: seq<Node>, i: nat, out: seq<Message>)
    requires i < |s| && Derives(s[..i], out)
    ensures Derives(s[..i + 1], if s[i].msg.Some? then out + [s[i].msg.value] else out)
  {
    var at :| DerivesAt(s[..i], out, at);
    RisingSnoc(at, i);
    if s[i].msg.Some? {
      assert DerivesAt(s[..i + 1], out + [s[i].msg.value], at + [i]);
    } else {
      assert DerivesAt(s[..i + 1], out, at);
    }
  }

  /** There is one such list only. */
  lemma DerivesOnce(s: seq<Node>, a: seq<Message>, b: seq<Message>)
    requires Derives(s, a) && Derives(s, b)
    ensures a == b
  {
    hide Rising;
    var at :| DerivesAt(s, a, at);
    var bt :| DerivesAt(s, b, bt);
    DerivedPositions(s, a, at);
    DerivedPositions(s, b, bt);
    RisingOnce(at, bt, |s|);
    forall j | 0 <= j < |a| ensures a[j] == b[j] { assert s[at[j]].msg == Some(a[j]); }
  }

  lemma DerivedPositions(s: seq<Node>, a: seq<Message>, at: seq<nat>)
    requires DerivesAt(s, a, at)
    ensures forall i: nat :: i in at <==> i < |s| && s[i].msg.Some?
  {
    forall i: nat | i in at ensures i < |s| && s[i].msg.Some? {
      var j :| 0 <= j < |at| && at[j] == i;
    }
  }

  /** Restoring a log's records gives the history that log derives. */
  lemma RestoredHistory(es: seq<Event>, original: seq<Node>, restored: seq<Node>, a: seq<Message>, b: seq<Message>)
    requires Replay(es) == Some(original) && Replay(es) == Some(restored) && Derives(original, a) && Derives(restored, b)
    ensures a == b
  {
    DerivesOnce(original, a, b);
  }

  lemma {:induction false} PrefixRejected(es: seq<Event>, k: nat)
    requires k <= |es| && Replay(es[..k]).None?
    ensures Replay(es).None?
    decreases |es| - k
  {
    if k < |es| {
      assert es[..k + 1][..k] == es[..k];
      PrefixRejected(es, k + 1);
    } else {
      assert es[..k] == es;
    }
  }

  // ---------------------------------------------------------------- Restore accepts exactly what Append can commit

  datatype LogValue = LogValue(events: seq<Event>, surface: seq<Node>)

  /** What appending one draft to an open log leaves; a refused one leaves no trace. */
  function Offered(v: LogValue, e: Event): LogValue {
    var c := e.(seq_ := |v.events| + 1);
    if e.seq_ != 0 then v
    else match Apply(v.surface, c)
         case None => v
         case Some(s) => LogValue(v.events + [c], s)
  }

  /** Appending the drafts one by one to an open empty log. */
  function Offer(drafts: seq<Event>): LogValue {
    if drafts == [] then LogValue([], []) else Offered(Offer(drafts[..|drafts| - 1]), drafts[|drafts| - 1])
  }

  lemma {:induction false} OfferedIsRestorable(drafts: seq<Event>)
    ensures Restorable(Offer(drafts).events) && Replay(Offer(drafts).events) == Some(Offer(drafts).surface)
  {
    if drafts != [] {
      var rest := drafts[..|drafts| - 1];
      OfferedIsRestorable(rest);
      var v, w := Offer(rest), Offer(drafts);
      if w != v { assert w.events[..|w.events| - 1] == v.events; }
    }
  }

  lemma OfferOne(drafts: seq<Event>, e: Event)
    requires e.seq_ == 0
    ensures var v, c := Offer(drafts), e.(seq_ := |Offer(drafts).events| + 1);
            Apply(v.surface, c).Some? ==> Offer(drafts + [e]).events == v.events + [c]
  {
    hide Apply;
    assert (drafts + [e])[..|drafts|] == drafts;
  }

  /** The last record of a restorable list applies to what the ones before it leave, under its own number. */
  lemma RestorablePrefix(es: seq<Event>)
    requires Restorable(es) && es != []
    ensures var n := |es| - 1;
            Restorable(es[..n]) && Replay(es[..n]).Some? && Apply(Replay(es[..n]).value, es[n]).Some? && es[n].seq_ == |es|
  {
    hide Apply;
  }

  lemma {:induction false} RestorableIsOffered(es: seq<Event>) returns (drafts: seq<Event>)
    requires Restorable(es)
    ensures Offer(drafts).events == es
  {
    if es == [] {
      drafts := [];
    } else {
      var n := |es| - 1;
      hide Apply;
      RestorablePrefix(es);
      var ds := RestorableIsOffered(es[..n]);
      OfferedIsRestorable(ds);
      hide Replay, Restorable;
      OfferOne(ds, es[n].(seq_ := 0));
      drafts := ds + [es[n].(seq_ := 0)];
      assert es == es[..n] + [es[n]];
    }
  }

  /** A record list can be restored exactly when some sequence of appends commits it, and restoring
      gives the surface (hence the derived messages) those appends left. */
  lemma RestoreIffCommitted(es: seq<Event>)
    ensures Restorable(es) <==> exists drafts :: Offer(drafts).events == es
    ensures forall drafts :: Offer(drafts).events == es ==> Replay(es) == Some(Offer(drafts).surface)
  {
    if Restorable(es) {
      var drafts := RestorableIsOffered(es);
    }
    forall drafts | Offer(drafts).events == es
      ensures Restorable(es) && Replay(es) == Some(Offer(drafts).surface)
    {
      OfferedIsRestorable(drafts);
    }
  }

  // ---------------------------------------------------------------- sequence numbers on the surface

  ghost function Seqs(s: seq<Node>): set<int> { set n | n in s :: n.seq_ }

  ghost predicate DistinctSeqs(s: seq<Node>) {
    forall i, j :: 0 <= i < j < |s| ==> s[i].seq_ != s[j].seq_
  }

  ghost function Range(lo: int, hi: int): (r: set<int>)
    ensures forall x :: x in r <==> lo <= x < hi
    ensures lo <= hi ==> |r| == hi - lo
    decreases hi - lo
  {
    if hi <= lo then {} else Range(lo, hi - 1) + {hi - 1}
  }

  lemma {:induction false} SeqsCard(s: seq<Node>)
    requires DistinctSeqs(s)
    ensures |Seqs(s)| == |s|
  {
    if s != [] {
      var rest, last := s[..|s| - 1], s[|s| - 1];
      SeqsCard(rest);
      assert s == rest + [last];
      assert Seqs(s) == Seqs(rest) + {last.seq_};
      assert forall n :: n in rest ==> n.seq_ != last.seq_;
    }
  }

  /** Pigeonhole: `k` distinct sequence numbers inside a range of size `k` are the whole range. */
  lemma RunIsWholeRange(s: seq<Node>, from: int, to: int)
    requires DistinctSeqs(s) && from <= to && |s| == to - from + 1
    requires forall n :: n in s ==> from <= n.seq_ <= to
    ensures Seqs(s) == Range(from, to + 1)
  {
    SeqsCard(s);
    assert Seqs(s) <= Range(from, to + 1);
    assert Range(from, to + 1) == Seqs(s) + (Range(from, to + 1) - Seqs(s));
    assert |Range(from, to + 1) - Seqs(s)| == 0;
  }

  lemma SeqsConcat(a: seq<Node>, b: seq<Node>)
    ensures Seqs(a + b) == Seqs(a) + Seqs(b)
  {
    forall x | x in Seqs(a) + Seqs(b) ensures x in Seqs(a + b) {
      var n :| (n in a || n in b) && n.seq_ == x;
      assert n in a + b;
    }
  }

  lemma DistinctConcat(a: seq<Node>, b: seq<Node>)
    ensures DistinctSeqs(a + b) <==> DistinctSeqs(a) && DistinctSeqs(b) && Seqs(a) !! Seqs(b)
  {
    var c := a + b;
    if DistinctSeqs(c) {
      assert forall i :: 0 <= i < |a| ==> a[i] == c[i];
      assert forall j :: 0 <= j < |b| ==> b[j] == c[|a| + j];
    }
    if DistinctSeqs(a) && DistinctSeqs(b) && Seqs(a) !! Seqs(b) {
      forall i, j | 0 <= i < j < |c| ensures c[i].seq_ != c[j].seq_ {
        assert i < |a| ==> c[i] in a && c[i].seq_ in Seqs(a);
        assert j >= |a| ==> c[j] in b && c[j].seq_ in Seqs(b);
      }
    }
  }

  lemma DistinctThree(a: seq<Node>, b: seq<Node>, c: seq<Node>)
    ensures Seqs(a + b + c) == Seqs(a) + Seqs(b) + Seqs(c)
    ensures DistinctSeqs(a + b + c) <==>
      && DistinctSeqs(a) && DistinctSeqs(b) && DistinctSeqs(c)
      && Seqs(a) !! Seqs(b) && Seqs(a) !! Seqs(c) && Seqs(b) !! Seqs(c)
  {
    hide DistinctSeqs, Seqs;
    SeqsConcat(a, b);
    SeqsConcat(a + b, c);
    DistinctConcat(a, b);
    DistinctConcat(a + b, c);
  }

  /** A successful replacement removes exactly the numbers from..to and adds the new record's. */
  lemma ReplaceRemovesRange(s: seq<Node>, from: int, to: int, n: Node)
    requires DistinctSeqs(s) && n.seq_ !in Seqs(s) && Replace(s, from, to, n).Some?
    ensures var t := Replace(s, from, to, n).value;
            && Range(from, to + 1) <= Seqs(s)
            && Seqs(t) == Seqs(s) - Range(from, to + 1) + {n.seq_}
            && DistinctSeqs(t) && |t| == |s| - (to - from)
  {
    hide Replace, RunAt, DistinctSeqs, Seqs, Range;
    var pre, run, post := RunParts(s, from, to, n);
    SwapRun(pre, run, post, n, from, to);
  }

  /** From position `i` on stand as many nodes inside the range as it is long, the first one its start. */
  ghost predicate ShadowsAt(s: seq<Node>, from: int, to: int, i: nat) {
    && from <= to && i + (to - from + 1) <= |s| && s[i].seq_ == from
    && forall j :: i <= j < i + (to - from + 1) ==> from <= s[j].seq_ <= to
  }

  /** A replacement is accepted exactly when such a run stands on the surface, and takes its place. */
  lemma ReplaceIff(s: seq<Node>, from: int, to: int, n: Node)
    requires DistinctSeqs(s)
    ensures Replace(s, from, to, n).Some? <==> 0 < from && exists i: nat :: ShadowsAt(s, from, to, i)
    ensures forall i: nat :: 0 < from && ShadowsAt(s, from, to, i) ==>
              Replace(s, from, to, n) == Some(s[..i] + [n] + s[i + (to - from + 1)..])
  {
    hide IndexOf, RunLength;
    if Replace(s, from, to, n).Some? {
      var i := RunAt(s, from, to).value;
      assert forall j :: i <= j < i + (to - from + 1) ==> s[j] == s[i..][j - i];
      assert ShadowsAt(s, from, to, i);
    }
    forall i: nat | 0 < from && ShadowsAt(s, from, to, i)
      ensures Replace(s, from, to, n) == Some(s[..i] + [n] + s[i + (to - from + 1)..])
    {
      ShadowIsRun(s, from, to, i);
    }
  }

  /** What a record says to the model. */
  function Said(e: Event): seq<Message> { if e.msg.Some? then [e.msg.value] else [] }

  /** An appended record's message comes last in the history; a log-only record, whatever its operation
      number, leaves the history alone. */
  lemma AppendedHistory(s: seq<Node>, e: Event, out: seq<Message>)
    requires Derives(s, out)
    ensures e.op == APPEND ==> Apply(s, e).Some? && Derives(Apply(s, e).value, out + Said(e))
    ensures e.op != APPEND && e.op != REPLACE ==> Apply(s, e).Some? && Derives(Apply(s, e).value, out)
  {
    hide DerivesAt, Derives;
    if e.op == APPEND {
      NodeDerives(e);
      DerivesConcat(s, [NodeOf(e)], out, Said(e));
    }
  }

  /** A replacement's message stands where the messages of the shadowed run stood. */
  lemma ReplacedHistory(s: seq<Node>, e: Event, i: nat, before: seq<Message>, after: seq<Message>)
    requires DistinctSeqs(s) && e.op == REPLACE && e.sourceFrom > 0 && ShadowsAt(s, e.sourceFrom, e.sourceTo, i)
    requires Derives(s[..i], before) && Derives(s[i + (e.sourceTo - e.sourceFrom + 1)..], after)
    ensures Apply(s, e).Some? && Derives(Apply(s, e).value, before + Said(e) + after)
  {
    hide DerivesAt, Derives, Replace, DistinctSeqs;
    ReplaceIff(s, e.sourceFrom, e.sourceTo, NodeOf(e));
    NodeDerives(e);
    DerivesConcat(s[..i], [NodeOf(e)], before, Said(e));
    DerivesConcat(s[..i] + [NodeOf(e)], s[i + (e.sourceTo - e.sourceFrom + 1)..], before + Said(e), after);
  }

  lemma NodeDerives(e: Event)
    ensures Derives([NodeOf(e)], Said(e))
  {
    assert DerivesAt([NodeOf(e)], Said(e), if e.msg.Some? then [0] else []);
  }

  lemma DerivesConcat(s: seq<Node>, t: seq<Node>, a: seq<Message>, b: seq<Message>)
    requires Derives(s, a) && Derives(t, b)
    ensures Derives(s + t, a + b)
  {
    hide Derives;
    var c := DerivesBoth(s, a, t);
    DerivesOnce(t, b, c);
  }

  lemma {:induction false} DerivesBoth(s: seq<Node>, a: seq<Message>, t: seq<Node>) returns (b: seq<Message>)
    requires Derives(s, a)
    ensures Derives(t, b) && Derives(s + t, a + b)
    decreases |t|
  {
    hide Derives;
    if t == [] {
      b := [];
      DerivesNothing();
      assert s + t == s && a + b == a;
    } else {
      var n := |t| - 1;
      var c := DerivesBoth(s, a, t[..n]);
      assert (s + t)[..|s| + n] == s + t[..n] && (s + t)[..|s| + n + 1] == s + t && t[..n + 1] == t;
      DerivesNext(t, n, c);
      DerivesNext(s + t, |s| + n, a + c);
      b := if t[n].msg.Some? then c + [t[n].msg.value] else c;
      assert t[n].msg.Some? ==> a + b == (a + c) + [t[n].msg.value];
    }
  }

  lemma NotAgain(s: seq<Node>, i: nat, len: nat)
    requires DistinctSeqs(s) && i + len < |s|
    ensures s[i + len].seq_ !in Seqs(s[i..i + len])
  {
    forall m | m in s[i..i + len] ensures m.seq_ != s[i + len].seq_ {
      var j :| 0 <= j < len && s[i..i + len][j] == m;
      assert s[i + j] == m;
    }
  }

  lemma ShadowWhole(s: seq<Node>, from: int, to: int, i: nat)
    requires DistinctSeqs(s) && ShadowsAt(s, from, to, i)
    ensures Seqs(s[i..i + (to - from + 1)]) == Range(from, to + 1)
  {
    hide Seqs, Range;
    var run := s[i..i + (to - from + 1)];
    assert forall k :: 0 <= k < |run| ==> run[k] == s[i + k];
    RunIsWholeRange(run, from, to);
  }

  lemma ShadowEnds(s: seq<Node>, from: int, to: int, i: nat)
    requires DistinctSeqs(s) && ShadowsAt(s, from, to, i)
    ensures var len := to - from + 1;
            i + len < |s| ==> !(from <= s[i + len].seq_ <= to)
  {
    hide Seqs, DistinctSeqs;
    ShadowWhole(s, from, to, i);
    if i + (to - from + 1) < |s| { NotAgain(s, i, to - from + 1); }
  }

  lemma ShadowLength(s: seq<Node>, from: int, to: int, i: nat)
    requires DistinctSeqs(s) && ShadowsAt(s, from, to, i)
    ensures RunLength(s[i..], from, to) == to - from + 1
  {
    ShadowEnds(s, from, to, i);
    hide DistinctSeqs, RunLength;
    var t, len := s[i..], to - from + 1;
    forall j | 0 <= j < len ensures from <= t[j].seq_ <= to { assert t[j] == s[i + j]; }
    if len < |t| { assert t[len] == s[i + len]; }
    RunIs(t, from, to, len);
  }

  lemma ShadowIsRun(s: seq<Node>, from: int, to: int, i: nat)
    requires DistinctSeqs(s) && 0 < from && ShadowsAt(s, from, to, i)
    ensures RunAt(s, from, to) == Some(i)
  {
    hide IndexOf, RunLength;
    ShadowLength(s, from, to, i);
    FirstIs(s, from, i);
  }

  /** The surface around the run that an accepted replacement shadows. */
  lemma RunParts(s: seq<Node>, from: int, to: int, n: Node) returns (pre: seq<Node>, run: seq<Node>, post: seq<Node>)
    requires Replace(s, from, to, n).Some?
    ensures s == pre + run + post && Replace(s, from, to, n).value == pre + [n] + post
    ensures from <= to && |run| == to - from + 1 && forall m :: m in run ==> from <= m.seq_ <= to
  {
    hide IndexOf, RunLength;
    var i := RunAt(s, from, to).value;
    var k := to - from + 1;
    pre, run, post := s[..i], s[i..i + k], s[i + k..];
    assert run == s[i..][..k];
    assert forall j :: 0 <= j < k ==> run[j] == s[i..][j];
  }

  lemma SwapRun(pre: seq<Node>, run: seq<Node>, post: seq<Node>, n: Node, from: int, to: int)
    requires DistinctSeqs(pre + run + post) && n.seq_ !in Seqs(pre + run + post)
    requires from <= to && |run| == to - from + 1 && forall m :: m in run ==> from <= m.seq_ <= to
    ensures Range(from, to + 1) <= Seqs(pre + run + post)
    ensures Seqs(pre + [n] + post) == Seqs(pre + run + post) - Range(from, to + 1) + {n.seq_}
    ensures DistinctSeqs(pre + [n] + post)
  {
    OneNode(n);
    hide DistinctSeqs, Seqs;
    DistinctThree(pre, run, post);
    DistinctThree(pre, [n], post);
    RunIsWholeRange(run, from, to);
  }

  lemma OneNode(n: Node)
    ensures Seqs([n]) == {n.seq_} && DistinctSeqs([n])
  {
    assert [n][0] in [n];
  }

  ghost predicate NodeSound(es: seq<Event>, n: Node) {
    && 1 <= n.seq_ <= |es| && n.kind == es[n.seq_ - 1].kind && n.msg == es[n.seq_ - 1].msg
    && (es[n.seq_ - 1].op == APPEND || es[n.seq_ - 1].op == REPLACE)
  }

  /** On every history: surface numbers are distinct, were all assigned, and each node carries its
      own record's kind and message. */
  lemma {:induction false} SurfaceSound(es: seq<Event>)
    requires Restorable(es)
    ensures DistinctSeqs(Replay(es).value)
    ensures forall n :: n in Replay(es).value ==> NodeSound(es, n)
  {
    if es != [] {
      var rest, e := es[..|es| - 1], es[|es| - 1];
      SurfaceSound(rest);
      var s := Replay(rest).value;
      assert forall n :: n in s ==> NodeSound(rest, n) && NodeSound(es, n);
      assert e.seq_ !in Seqs(s);
      OneNode(NodeOf(e));
      ApplyKeeps(s, e);
      assert NodeSound(es, NodeOf(e)) || (e.op != APPEND && e.op != REPLACE);
    }
  }

  lemma ApplyKeeps(s: seq<Node>, e: Event)
    requires DistinctSeqs(s) && e.seq_ !in Seqs(s) && Apply(s, e).Some?
    ensures DistinctSeqs(Apply(s, e).value)
    ensures forall n :: n in Apply(s, e).value ==> n in s || (n == NodeOf(e) && (e.op == APPEND || e.op == REPLACE))
  {
    OneNode(NodeOf(e));
    hide Replace, Range, Seqs, DistinctSeqs;
    if e.op == REPLACE {
      ReplaceRemovesRange(s, e.sourceFrom, e.sourceTo, NodeOf(e));
      var pre, run, post := RunParts(s, e.sourceFrom, e.sourceTo, NodeOf(e));
    } else if e.op == APPEND {
      DistinctConcat(s, [NodeOf(e)]);
    }
  }

  // ---------------------------------------------------------------- what each live node stands for

  /** A live node with the append records it stands for, and all records (appends and replacements)
      it has absorbed, itself included. */
  datatype Cell = Cell(node: Node, leaves: seq<int>, members: seq<int>)

  function Nodes(cs: seq<Cell>): (r: seq<Node>)
    ensures |r| == |cs| && forall i :: 0 <= i < |cs| ==> r[i] == cs[i].node
  {
    seq(|cs|, i requires 0 <= i < |cs| => cs[i].node)
  }

  function Leaves(cs: seq<Cell>): seq<int> {
    if cs == [] then [] else Leaves(cs[..|cs| - 1]) + cs[|cs| - 1].leaves
  }

  function Members(cs: seq<Cell>): seq<int> {
    if cs == [] then [] else Members(cs[..|cs| - 1]) + cs[|cs| - 1].members
  }

  /** One record's effect on the cells: a replacement takes over what the run it shadows stood for. */
  function ExpandBy(cs: seq<Cell>, e: Event): Option<seq<Cell>> {
    if e.op == APPEND then Some(cs + [Cell(NodeOf(e), [e.seq_], [e.seq_])])
    else if e.op == REPLACE then
      match RunAt(Nodes(cs), e.sourceFrom, e.sourceTo)
      case None => None
      case Some(i) =>
        var j := i + (e.sourceTo - e.sourceFrom + 1);
        Some(cs[..i] + [Cell(NodeOf(e), Leaves(cs[i..j]), Members(cs[i..j]) + [e.seq_])] + cs[j..])
    else Some(cs)
  }

  /** The surface with its cells. */
  function Expand(es: seq<Event>): Option<seq<Cell>> {
    if es == [] then Some([]) else
      match Expand(es[..|es| - 1])
      case None => None
      case Some(cs) => ExpandBy(cs, es[|es| - 1])
  }

  /** The append records, in log order. */
  function AppendSeqs(es: seq<Event>): seq<int> {
    if es == [] then [] else
      var e := es[|es| - 1];
      AppendSeqs(es[..|es| - 1]) + (if e.op == APPEND then [e.seq_] else [])
  }

  /** All records that ever entered the surface, in log order. */
  function SurfaceSeqs(es: seq<Event>): seq<int> {
    if es == [] then [] else
      var e := es[|es| - 1];
      SurfaceSeqs(es[..|es| - 1]) + (if e.op == APPEND || e.op == REPLACE then [e.seq_] else [])
  }

  lemma {:induction false} LeavesConcat(a: seq<Cell>, b: seq<Cell>)
    ensures Leaves(a + b) == Leaves(a) + Leaves(b)
  {
    if b == [] {
      assert a + b == a;
    } else {
      var n, c := |b| - 1, a + b;
      LeavesConcat(a, b[..n]);
      assert c[..|c| - 1] == a + b[..n] && c[|c| - 1] == b[n];
      assert Leaves(a) + Leaves(b[..n]) + b[n].leaves == Leaves(a) + (Leaves(b[..n]) + b[n].leaves);
    }
  }

  lemma Associates<T>(a: seq<T>, b: seq<T>, c: seq<T>)
    ensures a + b + c == a + (b + c)
  {
  }

  lemma {:induction false} MembersConcat(a: seq<Cell>, b: seq<Cell>)
    ensures Members(a + b) == Members(a) + Members(b)
  {
    if b == [] {
      assert a + b == a;
    } else {
      var n, c := |b| - 1, a + b;
      MembersConcat(a, b[..n]);
      assert c[..|c| - 1] == a + b[..n] && c[|c| - 1] == b[n];
      assert Members(c) == Members(a + b[..n]) + b[n].members && Members(b) == Members(b[..n]) + b[n].members;
      hide Members;
      Associates(Members(a), Members(b[..n]), b[n].members);
    }
  }

  lemma ConcatThree(a: seq<Cell>, b: seq<Cell>, c: seq<Cell>)
    ensures Leaves(a + b + c) == Leaves(a) + Leaves(b) + Leaves(c)
    ensures Members(a + b + c) == Members(a) + Members(b) + Members(c)
  {
    hide Leaves, Members;
    LeavesConcat(a, b);
    LeavesConcat(a + b, c);
    MembersConcat(a, b);
    MembersConcat(a + b, c);
  }

  lemma OneCell(c: Cell)
    ensures Leaves([c]) == c.leaves && Members([c]) == c.members
  {
    assert [c][..0] == [];
  }

  /** Handing a run's leaves and members to one new cell keeps them all, in place. */
  lemma Absorb(cs: seq<Cell>, i: nat, j: nat, c: Cell, q: int)
    requires i <= j <= |cs| && c.leaves == Leaves(cs[i..j]) && c.members == Members(cs[i..j]) + [q]
    ensures var ds := cs[..i] + [c] + cs[j..];
            Leaves(ds) == Leaves(cs) && multiset(Members(ds)) == multiset(Members(cs)) + multiset{q}
  {
    hide Leaves, Members;
    assert cs == cs[..i] + cs[i..j] + cs[j..];
    ConcatThree(cs[..i], cs[i..j], cs[j..]);
    ConcatThree(cs[..i], [c], cs[j..]);
    OneCell(c);
  }

  /** Forgetting what the cells stand for gives the plain surface. */
  lemma NodesReplaced(cs: seq<Cell>, i: nat, j: nat, c: Cell)
    requires i <= j <= |cs|
    ensures Nodes(cs[..i] + [c] + cs[j..]) == Nodes(cs)[..i] + [c.node] + Nodes(cs)[j..]
  {
  }

  lemma {:induction false} ExpandIsReplay(es: seq<Event>)
    ensures Expand(es).Some? <==> Replay(es).Some?
    ensures Expand(es).Some? ==> Nodes(Expand(es).value) == Replay(es).value
  {
    if es != [] {
      hide ExpandBy, Apply;
      ExpandIsReplay(es[..|es| - 1]);
      if Expand(es[..|es| - 1]).Some? { ExpandByApplies(Expand(es[..|es| - 1]).value, es[|es| - 1]); }
    }
  }

  lemma ExpandByApplies(cs: seq<Cell>, e: Event)
    ensures match Apply(Nodes(cs), e)
            case None => ExpandBy(cs, e).None?
            case Some(s) => ExpandBy(cs, e).Some? && Nodes(ExpandBy(cs, e).value) == s
  {
    hide Leaves, Members, RunAt, Nodes;
    if e.op == REPLACE {
      var run := RunAt(Nodes(cs), e.sourceFrom, e.sourceTo);
      if run.Some? {
        var i := run.value;
        var j := i + (e.sourceTo - e.sourceFrom + 1);
        NodesReplaced(cs, i, j, Cell(NodeOf(e), Leaves(cs[i..j]), Members(cs[i..j]) + [e.seq_]));
      }
    } else if e.op == APPEND {
      NodesAppended(cs, Cell(NodeOf(e), [e.seq_], [e.seq_]));
    }
  }

  lemma NodesAppended(cs: seq<Cell>, c: Cell)
    ensures Nodes(cs + [c]) == Nodes(cs) + [c.node]
  {
  }

  /** On every history, reading the surface left to right and expanding each live node into the
      append records it stands for lists all append records exactly once, in log order, even
      though the surface numbers themselves are no longer sorted. And every record that ever
      entered the surface belongs to exactly one live node. */
  lemma {:induction false} NothingLost(es: seq<Event>)
    requires Replay(es).Some?
    ensures Expand(es).Some? && Nodes(Expand(es).value) == Replay(es).value
    ensures Leaves(Expand(es).value) == AppendSeqs(es)
    ensures multiset(Members(Expand(es).value)) == multiset(SurfaceSeqs(es))
  {
    ExpandIsReplay(es);
    if es != [] {
      hide ExpandBy, Leaves, Members, Apply, Nodes;
      var rest := es[..|es| - 1];
      NothingLost(rest);
      ExpandStep(Expand(rest).value, es[|es| - 1]);
    }
  }

  lemma ExpandStep(cs: seq<Cell>, e: Event)
    requires ExpandBy(cs, e).Some?
    ensures var r := ExpandBy(cs, e).value;
            && Leaves(r) == Leaves(cs) + (if e.op == APPEND then [e.seq_] else [])
            && multiset(Members(r)) == multiset(Members(cs)) + multiset(if e.op == APPEND || e.op == REPLACE then [e.seq_] else [])
  {
    hide Leaves, Members, RunAt, Nodes;
    if e.op == APPEND {
      var c := Cell(NodeOf(e), [e.seq_], [e.seq_]);
      OneCell(c);
      LeavesConcat(cs, [c]);
      MembersConcat(cs, [c]);
    } else if e.op == REPLACE {
      var i := RunAt(Nodes(cs), e.sourceFrom, e.sourceTo).value;
      var j := i + (e.sourceTo - e.sourceFrom + 1);
      Absorb(cs, i, j, Cell(NodeOf(e), Leaves(cs[i..j]), Members(cs[i..j]) + [e.seq_]), e.seq_);
    }
  }

  ghost predicate IsAppend(es: seq<Event>, q: int) { 1 <= q <= |es| && es[q - 1].op == APPEND }

  ghost predicate EntersSurface(es: seq<Event>, q: int) {
    1 <= q <= |es| && (es[q - 1].op == APPEND || es[q - 1].op == REPLACE)
  }

  /** `AppendSeqs` lists the append records, each once and in increasing order; `SurfaceSeqs` lists
      the append and replacement records, each once. */
  lemma {:induction false} SeqListsExact(es: seq<Event>)
    requires Contiguous(es)
    ensures forall q :: q in AppendSeqs(es) <==> IsAppend(es, q)
    ensures forall q :: q in SurfaceSeqs(es) <==> EntersSurface(es, q)
    ensures Increasing(AppendSeqs(es)) && Increasing(SurfaceSeqs(es))
  {
    if es != [] {
      var rest, n := es[..|es| - 1], |es|;
      SeqListsExact(rest);
      assert forall q :: q != n ==> (IsAppend(es, q) <==> IsAppend(rest, q));
      assert forall q :: q != n ==> (EntersSurface(es, q) <==> EntersSurface(rest, q));
      assert !IsAppend(rest, n) && !EntersSurface(rest, n);
      assert es[n - 1].seq_ == n;
      IncreasingSnoc(AppendSeqs(rest), n);
      IncreasingSnoc(SurfaceSeqs(rest), n);
    }
  }

  lemma IncreasingSnoc(s: seq<int>, n: int)
    requires Increasing(s) && forall q :: q in s ==> q < n
    ensures Increasing(s + [n])
    ensures forall q :: q in s + [n] <==> q in s || q == n
  {
    assert forall i :: 0 <= i < |s| ==> s[i] in s;
  }

  ghost predicate Increasing(s: seq<int>) {
    forall i, j :: 0 <= i < j < |s| ==> s[i] < s[j]
  }
}

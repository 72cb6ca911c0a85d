/** The context guard (module/guard/guard.go): trimming an over-long history without leaving broken
    tool-call pairs. Token estimation, content compaction and the summarizer are parameters. */
module Guard {
  import opened Options
  import opened Messages
  import opened Sequences
  import SummaryText

  // ---------------------------------------------------------------- repairing pairs

  /** Drops nil messages, stray tool messages, and every block whose calls are not all answered. */
  function RepairPairing(ms: seq<Message>): (r: seq<Message>)
    ensures |r| <= |ms|
    decreases |ms|
  {
    if ms == [] then []
    else if ms[0].Nil? || ms[0].IsTool() then RepairPairing(ms[1..])
    else if !ms[0].IsCaller() then [ms[0]] + RepairPairing(ms[1..])
    else
      var k := ToolRun(ms[1..]);
      var rest := RepairPairing(ms[1..][k..]);
      if Complete(ms[0].calls, ms[1..][..k]) then [ms[0]] + ms[1..][..k] + rest else rest
  }

  /** The index loops of `repairToolPairing`. */
  method RepairToolPairing(msgs: seq<Message>) returns (kept: seq<Message>)
    ensures kept == RepairPairing(msgs)
  {
    hide RepairPairing, Complete, ToolRun;
    kept := [];
    var i := 0;
    while i < |msgs|
      invariant 0 <= i <= |msgs|
      invariant RepairPairing(msgs) == kept + RepairPairing(msgs[i..])
    {
      var m := msgs[i];
      RepairStep(msgs, i);
      if m.Nil? || m.IsTool() {
        i := i + 1;
        continue;
      }
      if m.role != Assistant || |m.calls| == 0 {
        kept := kept + [m];
        i := i + 1;
        continue;
      }
      var j, complete := ScanBlock(msgs, i);
      if complete { kept := kept + msgs[i..j]; }
      i := j;
    }
    RepairNothing(msgs[i..]);
  }

  lemma RepairNothing(ms: seq<Message>)
    requires ms == []
    ensures RepairPairing(ms) == []
  {
  }

  lemma BlockSlices<T>(msgs: seq<T>, i: nat, k: nat)
    requires i < |msgs| && k <= |msgs[i + 1..]|
    ensures msgs[i..][0] == msgs[i] && msgs[i..][1..] == msgs[i + 1..]
    ensures msgs[i + 1..][k..] == msgs[i + 1 + k..]
    ensures [msgs[i]] + msgs[i + 1..][..k] == msgs[i..i + 1 + k]
  {
  }

  /** One turn of the loop, on the rest of the history. */
  lemma RepairStep(msgs: seq<Message>, i: nat)
    requires i < |msgs|
    ensures var m, rest := msgs[i], RepairPairing(msgs[i..]);
            if m.Nil? || m.IsTool() then rest == RepairPairing(msgs[i + 1..])
            else if !m.IsCaller() then rest == [m] + RepairPairing(msgs[i + 1..])
            else
              var j := i + 1 + ToolRun(msgs[i + 1..]);
              rest == (if Complete(m.calls, msgs[i + 1..][..j - i - 1]) then msgs[i..j] else []) + RepairPairing(msgs[j..])
  {
    hide ToolRun, Complete;
    BlockSlices(msgs, i, ToolRun(msgs[i + 1..]));
  }

  /** Collects the IDs answered right behind the caller at `i` and checks that none is missing. */
  method ScanBlock(msgs: seq<Message>, i: nat) returns (j: nat, complete: bool)
    requires i < |msgs| && msgs[i].Msg?
    ensures i < j <= |msgs| && j - i - 1 == ToolRun(msgs[i + 1..])
    ensures complete == Complete(msgs[i].calls, msgs[i + 1..][..j - i - 1])
  {
    hide HasAnswer, ToolRun;
    j := i + 1;
    ghost var tail := msgs[i + 1..];
    assert tail[..0] == [] && tail == msgs[j..];
    NoAnswers();
    var responded: set<string> := {};
    while j < |msgs| && msgs[j].IsTool()
      invariant i < j <= |msgs|
      invariant ToolRun(tail) == j - i - 1 + ToolRun(msgs[j..])
      invariant forall id :: id in responded <==> HasAnswer(tail[..j - i - 1], id)
    {
      ToolRunStep(msgs, j);
      assert tail[..j - i] == tail[..j - i - 1] + [msgs[j]];
      AnswerSnoc(tail[..j - i - 1], msgs[j]);
      responded := responded + {msgs[j].callId};
      j := j + 1;
    }
    ToolRunEnd(msgs, j);
    complete := true;
    var calls := msgs[i].calls;
    for k := 0 to |calls|
      invariant complete && forall x :: 0 <= x < k ==> calls[x].id != "" && calls[x].id in responded
    {
      if calls[k].id == "" || calls[k].id !in responded {
        assert calls[k] in calls;
        complete := false;
        return;
      }
    }
  }

  lemma ToolRunStep(msgs: seq<Message>, j: nat)
    requires j < |msgs| && msgs[j].IsTool()
    ensures ToolRun(msgs[j..]) == 1 + ToolRun(msgs[j + 1..])
  {
    assert msgs[j..][1..] == msgs[j + 1..];
  }

  lemma ToolRunEnd(msgs: seq<Message>, j: nat)
    requires j <= |msgs| && (j < |msgs| ==> !msgs[j].IsTool())
    ensures ToolRun(msgs[j..]) == 0
  {
  }

  lemma NoAnswers()
    ensures forall id :: !HasAnswer([], id)
  {
  }

  lemma AnswerSnoc(ts: seq<Message>, m: Message)
    requires m.Msg?
    ensures forall id :: HasAnswer(ts + [m], id) <==> HasAnswer(ts, id) || id == m.callId
  {
    assert m in ts + [m];
  }

  lemma {:induction false} RepairStartsOpen(ms: seq<Message>)
    ensures RepairPairing(ms) == [] || Opens(RepairPairing(ms)[0])
    decreases |ms|
  {
    if ms != [] {
      if ms[0].Nil? || ms[0].IsTool() {
        RepairStartsOpen(ms[1..]);
      } else if ms[0].IsCaller() {
        RepairStartsOpen(ms[1..][ToolRun(ms[1..])..]);
      }
    }
  }

  /** The result is well paired, */
  lemma {:induction false} RepairIsPaired(ms: seq<Message>)
    ensures Paired(RepairPairing(ms))
    decreases |ms|
  {
    if ms == [] {
    } else if ms[0].Nil? || ms[0].IsTool() {
      RepairIsPaired(ms[1..]);
    } else if !ms[0].IsCaller() {
      RepairIsPaired(ms[1..]);
      assert RepairPairing(ms)[1..] == RepairPairing(ms[1..]);
    } else {
      var k := ToolRun(ms[1..]);
      var tools, rest := ms[1..][..k], ms[1..][k..];
      RepairIsPaired(rest);
      if Complete(ms[0].calls, tools) {
        RepairStartsOpen(rest);
        BlockPaired(ms[0], tools, RepairPairing(rest));
      }
    }
  }

  /** A message that stands where the rule wants it: neither nil, nor a caller with a call left open, nor
      a tool message outside the block of a caller whose calls are all answered. */
  ghost predicate KeptAt(ms: seq<Message>, i: nat) {
    && i < |ms| && ms[i].Msg?
    && (ms[i].IsCaller() ==> AllAnswered(ms, i))
    && (ms[i].IsTool() ==> exists k: nat :: InBlockOf(ms, k, i))
  }

  ghost predicate InBlockOf(ms: seq<Message>, k: nat, i: nat) {
    k < i < |ms| && ms[k].IsCaller() && OnlyToolsBetween(ms, k, i) && AllAnswered(ms, k)
  }

  /** `out` are the messages at the positions `at`, which are all that are to be kept. */
  ghost predicate KeepsAt(ms: seq<Message>, out: seq<Message>, at: seq<nat>) {
    && Rising(at, |ms|) && |at| == |out|
    && (forall j :: 0 <= j < |at| ==> out[j] == ms[at[j]] && KeptAt(ms, at[j]))
    && (forall i: nat :: KeptAt(ms, i) ==> i in at)
  }

  /** Behind `d` messages that are not the caller of what follows, keeping does not look back. */
  lemma KeptShift(ms: seq<Message>, d: nat, i: nat)
    requires d <= i < |ms|
    requires ms[i].IsTool() ==> forall k :: 0 <= k < d ==> !(ms[k].IsCaller() && OnlyToolsBetween(ms, k, i))
    ensures KeptAt(ms[d..], i - d) <==> KeptAt(ms, i)
  {
    var rest := ms[d..];
    assert rest[i - d] == ms[i];
    if ms[i].IsCaller() { AnsweredShift(ms, d, i - d); }
    if ms[i].IsTool() {
      var e := i - d;
      if k: nat :| InBlockOf(rest, k, e) {
        AnsweredShift(ms, d, k);
        ShiftBetween(ms, d, k, i - d);
        assert InBlockOf(ms, d + k, i);
      }
      if k: nat :| InBlockOf(ms, k, i) {
        assert k >= d;
        AnsweredShift(ms, d, k - d);
        ShiftBetween(ms, d, k - d, i - d);
        assert InBlockOf(rest, k - d, i - d);
      }
    }
  }

  lemma AnsweredShift(ms: seq<Message>, d: nat, i: nat)
    requires d + i < |ms| && ms[d + i].Msg?
    ensures ms[d..][i] == ms[d + i] && (AllAnswered(ms[d..], i) <==> AllAnswered(ms, d + i))
  {
    hide Answered;
    forall c | c in ms[d + i].calls ensures Answered(ms[d..], i, c.id) <==> Answered(ms, d + i, c.id) {
      ShiftAnswered(ms, d, i, c.id);
    }
  }

  /** The first `d` messages, all kept or all dropped, in front of what is kept of the rest. */
  lemma KeepsBehind(ms: seq<Message>, d: nat, all: bool, out: seq<Message>, at: seq<nat>)
    requires d <= |ms| && KeepsAt(ms[d..], out, at)
    requires forall i: nat :: d <= i < |ms| ==> (KeptAt(ms[d..], i - d) <==> KeptAt(ms, i))
    requires forall i: nat :: i < d ==> (KeptAt(ms, i) <==> all)
    ensures KeepsAt(ms, (if all then ms[..d] else []) + out, Behind(d, all, at))
  {
    hide KeptAt, Rising, Behind;
    var bt := Behind(d, all, at);
    BehindRises(d, all, at, |ms[d..]|);
    var kept := (if all then ms[..d] else []) + out;
    var h := |bt| - |at|;
    forall j | 0 <= j < |bt| ensures bt[j] < |ms| && kept[j] == ms[bt[j]] && KeptAt(ms, bt[j]) {
      if j < h {
        assert bt[j] == j;
      } else {
        assert KeptAt(ms[d..], at[j - h]);
        KeptIsInside(ms[d..], at[j - h]);
      }
    }
    forall i: nat | KeptAt(ms, i) ensures i in bt {
      KeptIsInside(ms, i);
      if i >= d { assert KeptAt(ms[d..], i - d); }
    }
  }

  lemma KeptIsInside(ms: seq<Message>, i: nat)
    requires KeptAt(ms, i)
    ensures i < |ms|
  {
  }

  /** How a history is repaired from the front: block by block, or message by message. */
  lemma RepairFrontBlock(ms: seq<Message>)
    requires ms != [] && ms[0].IsCaller()
    ensures var k := ToolRun(ms[1..]);
            1 + k <= |ms| && RepairPairing(ms)
              == (if Complete(ms[0].calls, ms[1..][..k]) then ms[..1 + k] else []) + RepairPairing(ms[1 + k..])
  {
    hide RepairPairing, Complete, ToolRun;
    var k := ToolRun(ms[1..]);
    FrontSlices(ms, k);
    RepairUnfold(ms, ms[1..], k, ms[1..][..k], ms[1 + k..]);
  }

  lemma RepairUnfold(ms: seq<Message>, tail: seq<Message>, k: nat, block: seq<Message>, rest: seq<Message>)
    requires ms != [] && ms[0].IsCaller() && tail == ms[1..] && k == ToolRun(tail)
    requires block == tail[..k] && rest == tail[k..]
    ensures RepairPairing(ms) == (if Complete(ms[0].calls, block) then [ms[0]] + block else []) + RepairPairing(rest)
  {
    hide Complete, ToolRun;
    assert [] + RepairPairing(rest) == RepairPairing(rest);
  }

  lemma FrontSlices<T>(s: seq<T>, k: nat)
    requires 1 + k <= |s|
    ensures s[1..][k..] == s[1 + k..] && [s[0]] + s[1..][..k] == s[..1 + k]
  {
  }

  lemma RepairFrontOne(ms: seq<Message>)
    requires ms != [] && !ms[0].IsCaller()
    ensures RepairPairing(ms) == (if ms[0].Msg? && !ms[0].IsTool() then ms[..1] else []) + RepairPairing(ms[1..])
  {
    hide RepairPairing, Complete, ToolRun;
    RepairStep(ms, 0);
    assert ms[0..] == ms && ms[..1] == [ms[0]] && [] + RepairPairing(ms[1..]) == RepairPairing(ms[1..]);
  }

  /** Repairing keeps exactly those messages, in their order. */
  lemma {:induction false} RepairKeepsExactly(ms: seq<Message>) returns (at: seq<nat>)
    ensures KeepsAt(ms, RepairPairing(ms), at)
    decreases |ms|
  {
    hide KeepsAt, Complete, ToolRun, RepairPairing;
    if ms == [] {
      at := KeepsNothing();
    } else {
      if ms[0].IsCaller() {
        RepairFrontBlock(ms);
        var k := ToolRun(ms[1..]);
        var bt := RepairKeepsExactly(ms[1 + k..]);
        at := KeepsBlock(ms, k, RepairPairing(ms[1 + k..]), bt);
      } else {
        RepairFrontOne(ms);
        var bt := RepairKeepsExactly(ms[1..]);
        at := KeepsNext(ms, ms[0].Msg? && !ms[0].IsTool(), RepairPairing(ms[1..]), bt);
      }
    }
  }

  lemma KeepsNothing() returns (at: seq<nat>)
    ensures KeepsAt([], RepairPairing([]), at)
  {
    at := [];
  }

  lemma KeepsNext(ms: seq<Message>, kept: bool, out: seq<Message>, at: seq<nat>) returns (bt: seq<nat>)
    requires ms != [] && !ms[0].IsCaller() && (kept <==> ms[0].Msg? && !ms[0].IsTool()) && KeepsAt(ms[1..], out, at)
    ensures KeepsAt(ms, (if kept then ms[..1] else []) + out, bt)
  {
    hide KeepsAt;
    forall i: nat | 1 <= i < |ms| ensures KeptAt(ms[1..], i - 1) <==> KeptAt(ms, i) { KeptShift(ms, 1, i); }
    KeepsBehind(ms, 1, kept, out, at);
    bt := Behind(1, kept, at);
  }

  lemma KeepsBlock(ms: seq<Message>, k: nat, out: seq<Message>, at: seq<nat>) returns (bt: seq<nat>)
    requires ms != [] && ms[0].IsCaller() && k == ToolRun(ms[1..]) && KeepsAt(ms[1 + k..], out, at)
    ensures KeepsAt(ms, (if Complete(ms[0].calls, ms[1..][..k]) then ms[..1 + k] else []) + out, bt)
  {
    hide KeepsAt, Complete, AllAnswered;
    HeadBlock(ms, k);
    BlockEnds(ms, k);
    forall i: nat | 1 + k <= i < |ms| ensures KeptAt(ms[1 + k..], i - (1 + k)) <==> KeptAt(ms, i) {
      KeptShift(ms, 1 + k, i);
    }
    forall i: nat | i < 1 + k ensures KeptAt(ms, i) <==> AllAnswered(ms, 0) {
      if i > 0 {
        assert OnlyToolsBetween(ms, 0, i);
        if AllAnswered(ms, 0) { assert InBlockOf(ms, 0, i); }
        forall x: nat | 0 < x < i ensures !InBlockOf(ms, x, i) { assert ms[x].IsTool(); }
      }
    }
    KeepsBehind(ms, 1 + k, AllAnswered(ms, 0), out, at);
    bt := Behind(1 + k, AllAnswered(ms, 0), at);
  }

  /** Nothing behind the run of tool messages belongs to its caller. */
  lemma BlockEnds(ms: seq<Message>, k: nat)
    requires ms != [] && k == ToolRun(ms[1..])
    ensures 1 + k <= |ms| && forall i :: 1 <= i <= k ==> ms[i].IsTool()
    ensures forall x, i :: 0 <= x <= k < i < |ms| && ms[i].IsTool() ==> !(ms[x].IsCaller() && OnlyToolsBetween(ms, x, i))
  {
    assert forall i :: 1 <= i <= k ==> ms[i] == ms[1..][i - 1];
    if 1 + k < |ms| { assert ms[1 + k] == ms[1..][k]; }
  }

  /** contains only messages of the input, in order, */
  lemma {:induction false} RepairIsSubsequence(ms: seq<Message>)
    ensures Subsequence(RepairPairing(ms), ms)
    decreases |ms|
  {
    if ms == [] {
    } else if ms[0].Nil? || ms[0].IsTool() {
      RepairIsSubsequence(ms[1..]);
      assert ms == [ms[0]] + ms[1..];
      SubsequenceDropFront(RepairPairing(ms[1..]), [ms[0]], ms[1..]);
    } else if !ms[0].IsCaller() {
      RepairIsSubsequence(ms[1..]);
      assert ms == [ms[0]] + ms[1..];
      SubsequenceKeepFront([ms[0]], RepairPairing(ms[1..]), ms[1..]);
    } else {
      var k := ToolRun(ms[1..]);
      var block, rest := [ms[0]] + ms[1..][..k], ms[1..][k..];
      assert ms == block + rest;
      RepairIsSubsequence(rest);
      if Complete(ms[0].calls, ms[1..][..k]) {
        SubsequenceKeepFront(block, RepairPairing(rest), rest);
      } else {
        SubsequenceDropFront(RepairPairing(rest), block, rest);
      }
    }
  }

  /** and is the input itself exactly when nothing was broken. */
  lemma {:induction false} RepairIdentityIffPaired(ms: seq<Message>)
    ensures RepairPairing(ms) == ms <==> Paired(ms)
    decreases |ms|
  {
    if ms == [] {
    } else if ms[0].Nil? || ms[0].IsTool() {
      assert |RepairPairing(ms)| <= |ms| - 1;
    } else if !ms[0].IsCaller() {
      RepairIdentityIffPaired(ms[1..]);
      assert RepairPairing(ms) == [ms[0]] + RepairPairing(ms[1..]);
      assert RepairPairing(ms)[1..] == RepairPairing(ms[1..]);
    } else {
      var k := ToolRun(ms[1..]);
      var block, rest := [ms[0]] + ms[1..][..k], ms[1..][k..];
      assert ms == block + rest;
      RepairIdentityIffPaired(rest);
      if Complete(ms[0].calls, ms[1..][..k]) {
        assert RepairPairing(ms)[|block|..] == RepairPairing(rest) && ms[|block|..] == rest;
      } else {
        assert |RepairPairing(ms)| <= |rest| < |ms|;
      }
    }
  }

  lemma RepairIdempotent(ms: seq<Message>)
    ensures RepairPairing(RepairPairing(ms)) == RepairPairing(ms)
  {
    RepairIsPaired(ms);
    RepairIdentityIffPaired(RepairPairing(ms));
  }

  // ---------------------------------------------------------------- the estimate

  /** What the guard needs of token estimation: dropping messages never raises it. */
  ghost predicate Monotone(est: seq<Message> -> nat) {
    est([]) == 0 && forall a, b :: Subsequence(a, b) ==> est(a) <= est(b)
  }

  /** The sum of the messages' weights; nil messages weigh nothing. */
  function Total(weight: Message -> nat, ms: seq<Message>): nat {
    if ms == [] then 0 else (if ms[0].Nil? then 0 else weight(ms[0])) + Total(weight, ms[1..])
  }

  /** The uncalibrated estimate: a quarter of the weight, rounded down once for the whole list. */
  ghost predicate Quarters(est: seq<Message> -> nat, weight: Message -> nat) {
    forall ms :: est(ms) == Total(weight, ms) / 4
  }

  ghost predicate Increases(scale: nat -> nat) { scale(0) == 0 && forall a: nat, b: nat :: a <= b ==> scale(a) <= scale(b) }

  /** The estimate with any calibration: `scale` is the rounded-down multiplication by the learned factor. */
  ghost predicate Scaled(est: seq<Message> -> nat, weight: Message -> nat, scale: nat -> nat) {
    Increases(scale) && forall ms :: est(ms) == scale(Total(weight, ms) / 4)
  }

  lemma {:induction false} TotalAppend(weight: Message -> nat, a: seq<Message>, b: seq<Message>)
    ensures Total(weight, a + b) == Total(weight, a) + Total(weight, b)
  {
    if a == [] {
      assert a + b == b;
    } else {
      assert (a + b)[1..] == a[1..] + b;
      TotalAppend(weight, a[1..], b);
    }
  }

  /** Leaving messages out never adds weight. */
  lemma {:induction false} TotalOfSubsequence(weight: Message -> nat, a: seq<Message>, b: seq<Message>)
    requires Subsequence(a, b)
    ensures Total(weight, a) <= Total(weight, b)
    decreases |b|
  {
    if a != [] && b != [] {
      if a[0] == b[0] && Subsequence(a[1..], b[1..]) {
        TotalOfSubsequence(weight, a[1..], b[1..]);
      } else {
        TotalOfSubsequence(weight, a, b[1..]);
      }
    }
  }

  /** Calibrated or not, the guard's estimate is monotone. */
  lemma EstimateIsMonotone(est: seq<Message> -> nat, weight: Message -> nat, scale: nat -> nat)
    requires Scaled(est, weight, scale)
    ensures Monotone(est)
  {
    hide Subsequence;
    assert est([]) == scale(Total(weight, []) / 4);
    forall a, b | Subsequence(a, b) ensures est(a) <= est(b) {
      TotalOfSubsequence(weight, a, b);
      assert est(a) == scale(Total(weight, a) / 4) && est(b) == scale(Total(weight, b) / 4);
      QuarterGrows(Total(weight, a), Total(weight, b));
    }
  }

  lemma QuarterGrows(a: nat, b: nat)
    requires a <= b
    ensures a / 4 <= b / 4
  {
  }

  // ---------------------------------------------------------------- which messages a trim dropped

  function RoleText(r: Role): string {
    match r
    case System => "system"
    case User => "user"
    case Assistant => "assistant"
    case Tool => "tool"
    case Custom(name) => name
  }

  /** The content identity `messageKey` compares by. */
  function Key(m: Message): string
    requires m.Msg?
  {
    RoleText(m.role) + "|" + m.callId + "|" + m.toolName + "|" + m.content
  }

  lemma BarSplit(a: string, x: string, b: string, y: string)
    requires '|' !in a && '|' !in b && a + ("|" + x) == b + ("|" + y)
    ensures a == b && x == y
  {
    var s := a + ("|" + x);
    assert s[|a|] == '|' && s[|b|] == '|';
    assert forall k :: 0 <= k < |a| ==> s[k] == a[k] && s[k] in a;
    assert forall k :: 0 <= k < |b| ==> s[k] == b[k] && s[k] in b;
    assert |a| == |b|;
    assert a == s[..|a|] && b == s[..|b|] && x == s[|a| + 1..] && y == s[|b| + 1..];
  }

  /** Keys tell messages apart: equal keys mean equal role, IDs and content, unless a bar stands in one of
      the first three. */
  lemma KeysDiffer(a: Message, b: Message)
    requires a.Msg? && b.Msg? && NoBars(a) && NoBars(b)
    ensures Key(a) == Key(b) <==>
            RoleText(a.role) == RoleText(b.role) && a.callId == b.callId && a.toolName == b.toolName && a.content == b.content
  {
    hide RoleText;
    KeyParts(a);
    KeyParts(b);
    if Key(a) == Key(b) {
      BarSplit(RoleText(a.role), a.callId + ("|" + (a.toolName + ("|" + a.content))),
               RoleText(b.role), b.callId + ("|" + (b.toolName + ("|" + b.content))));
      BarSplit(a.callId, a.toolName + ("|" + a.content), b.callId, b.toolName + ("|" + b.content));
      BarSplit(a.toolName, a.content, b.toolName, b.content);
    }
  }

  predicate NoBars(m: Message) { m.Msg? && '|' !in RoleText(m.role) && '|' !in m.callId && '|' !in m.toolName }

  lemma KeyParts(m: Message)
    requires m.Msg?
    ensures Key(m) == RoleText(m.role) + ("|" + (m.callId + ("|" + (m.toolName + ("|" + m.content)))))
  {
    FourParts(RoleText(m.role), m.callId, m.toolName, m.content);
  }

  lemma FourParts(a: string, b: string, c: string, d: string)
    ensures a + "|" + b + "|" + c + "|" + d == a + ("|" + (b + ("|" + (c + ("|" + d)))))
  {
  }

  function Keys(ms: seq<Message>): multiset<string> {
    if ms == [] then multiset{} else
      Keys(ms[..|ms| - 1]) + (if ms[|ms| - 1].Nil? then multiset{} else multiset{Key(ms[|ms| - 1])})
  }

  /** Counts the keys still present and reports the surplus: a multiset difference. */
  method DroppedMessages(before: seq<Message>, after: seq<Message>) returns (dropped: seq<Message>)
    ensures Keys(dropped) == Keys(before) - Keys(after)
    ensures (forall m :: m in dropped ==> m.Msg?) && Subsequence(dropped, before)
  {
    hide Keys, Key, CountsAre, Subsequence;
    var afterCount := CountKeys(after);
    dropped := [];
    ghost var a := Keys(after);
    SubsequenceSelf(before[..0]);
    KeysNone(dropped);
    KeysNone(before[..0]);
    assert a - Keys(before[..0]) == a;
    for i := 0 to |before|
      invariant CountsAre(afterCount, a - Keys(before[..i]))
      invariant Keys(dropped) == Keys(before[..i]) - a
      invariant (forall m :: m in dropped ==> m.Msg?) && Subsequence(dropped, before[..i])
    {
      KeysSnoc(before, i);
      var m := before[i];
      TakenOrNot(dropped, before, i);
      if m.Nil? { continue; }
      var k := Key(m);
      CountOne(afterCount, a, Keys(before[..i]), k);
      if k in afterCount && afterCount[k] > 0 {
        afterCount := afterCount[k := afterCount[k] - 1];
        continue;
      }
      KeysOneMore(dropped, m);
      dropped := dropped + [m];
    }
    assert before[..|before|] == before;
  }

  lemma TakenOrNot<T>(a: seq<T>, b: seq<T>, i: nat)
    requires i < |b| && Subsequence(a, b[..i])
    ensures Subsequence(a, b[..i + 1]) && Subsequence(a + [b[i]], b[..i + 1])
  {
    hide Subsequence;
    var c := b[..i];
    assert b[..i + 1] == c + [b[i]];
    SubsequenceKeepBack(a, c, [b[i]]);
    SubsequenceSelf<T>([]);
    SubsequenceDropFront<T>([], [b[i]], []);
    assert [b[i]] + [] == [b[i]] && c + [] == c;
    SubsequenceKeepFront(c, [], [b[i]]);
    SubsequenceTransitive(a, c, c + [b[i]]);
  }

  method CountKeys(ms: seq<Message>) returns (counts: map<string, nat>)
    ensures CountsAre(counts, Keys(ms))
  {
    hide Keys, Key;
    counts := map[];
    KeysNone(ms[..0]);
    for i := 0 to |ms|
      invariant CountsAre(counts, Keys(ms[..i]))
    {
      KeysSnoc(ms, i);
      if ms[i].Msg? {
        var k := Key(ms[i]);
        counts := counts[k := (if k in counts then counts[k] else 0) + 1];
      }
    }
    assert ms[..|ms|] == ms;
  }

  lemma CountsRead(counts: map<string, nat>, keys: multiset<string>, k: string)
    requires CountsAre(counts, keys)
    ensures keys[k] == if k in counts then counts[k] else 0
    ensures keys[k] > 0 ==> CountsAre(counts[k := keys[k] - 1], keys - multiset{k})
  {
  }

  /** One more key: it uses up one that is left, or it is one of the surplus. */
  lemma CountOne(counts: map<string, nat>, a: multiset<string>, b: multiset<string>, k: string)
    requires CountsAre(counts, a - b)
    ensures var c := b + multiset{k};
            if k in counts && counts[k] > 0 then CountsAre(counts[k := counts[k] - 1], a - c) && c - a == b - a
            else CountsAre(counts, a - c) && c - a == (b - a) + multiset{k}
  {
    hide CountsAre;
    Surplus(a, b, k);
    CountsRead(counts, a - b, k);
  }

  lemma Surplus(a: multiset<string>, b: multiset<string>, k: string)
    ensures var c := b + multiset{k};
            if (a - b)[k] > 0 then c - a == b - a && a - c == a - b - multiset{k}
            else c - a == (b - a) + multiset{k} && a - c == a - b
  {
  }

  lemma KeysOneMore(ms: seq<Message>, m: Message)
    requires m.Msg?
    ensures Keys(ms + [m]) == Keys(ms) + multiset{Key(m)}
  {
    assert (ms + [m])[..|ms|] == ms;
  }

  lemma KeysNone(ms: seq<Message>)
    requires ms == []
    ensures Keys(ms) == multiset{}
  {
  }

  lemma KeysSnoc(ms: seq<Message>, i: nat)
    requires i < |ms|
    ensures Keys(ms[..i + 1]) == if ms[i].Nil? then Keys(ms[..i]) else Keys(ms[..i]) + multiset{Key(ms[i])}
  {
    assert ms[..i + 1][..i] == ms[..i];
  }

  ghost predicate CountsAre(counts: map<string, nat>, keys: multiset<string>) {
    forall k :: keys[k] == if k in counts then counts[k] else 0
  }

  // ---------------------------------------------------------------- trimming

  /** The configuration, with its arithmetic and text processing as parameters: `est` estimates
      tokens, `compactText` shortens a tool result, `firstWindow` is the ratio-based first guess,
      `summarizer` returns None on an error or a blank summary, `mergeSummary` rewrites the text of
      the first message, as in SummaryText.Merge where that ends. */
  datatype Config = Config(
    est: seq<Message> -> nat,
    tokenBudget: int,
    threshold: int,
    minBudget: nat,
    toolTruncateLength: int,
    compactText: string -> string,
    firstWindow: (int, nat, nat) -> int,
    summaryReserve: int -> int,
    summarizer: Option<seq<Message> -> Option<string>>,
    mergeSummary: (string, string) -> string)

  function CompactOne(cfg: Config, m: Message): Message {
    if m.IsTool() && |m.content| > cfg.toolTruncateLength > 0 then m.(content := cfg.compactText(m.content)) else m
  }

  function Compact(cfg: Config, ms: seq<Message>): (r: seq<Message>)
    ensures SameShapes(ms, r)
  {
    seq(|ms|, i requires 0 <= i < |ms| => CompactOne(cfg, ms[i]))
  }

  method CompactMessages(cfg: Config, msgs: seq<Message>) returns (result: seq<Message>)
    ensures result == Compact(cfg, msgs)
    ensures |result| == |msgs| && forall i :: 0 <= i < |msgs| ==>
      if msgs[i].Msg? && msgs[i].role == Tool && |msgs[i].content| > cfg.toolTruncateLength > 0
      then result[i] == msgs[i].(content := cfg.compactText(msgs[i].content)) else result[i] == msgs[i]
  {
    result := [];
    for i := 0 to |msgs|
      invariant |result| == i && forall j :: 0 <= j < i ==> result[j] == CompactOne(cfg, msgs[j])
    {
      var m := msgs[i];
      if m.IsTool() && |m.content| > cfg.toolTruncateLength > 0 {
        m := m.(content := cfg.compactText(m.content));
      }
      result := result + [m];
    }
  }

  /** The first message and the last `keep - 1` of the others. */
  function Raw(ms: seq<Message>, keep: nat): seq<Message>
    requires 1 <= keep <= |ms|
  {
    [ms[0]] + ms[|ms| - keep + 1..]
  }

  lemma RawSays(ms: seq<Message>, keep: nat)
    requires 1 <= keep <= |ms|
    ensures |Raw(ms, keep)| == keep && Raw(ms, keep)[0] == ms[0]
    ensures forall j :: 1 <= j < keep ==> Raw(ms, keep)[j] == ms[|ms| - keep + j]
  {
  }

  function Budget(cfg: Config, budget: int): int { if budget <= 0 then cfg.minBudget else budget }

  /** The window the ratio estimate starts from. */
  function FirstKeep(cfg: Config, ms: seq<Message>, budget: int): nat {
    var k := cfg.firstWindow(budget, cfg.est(ms), |ms|);
    if k > |ms| || |ms| < 2 then |ms| else if k < 2 then 2 else k
  }

  /** The guess counts where it lies between two messages and all of them. */
  lemma FirstKeepSays(cfg: Config, ms: seq<Message>, budget: int)
    requires |ms| >= 2
    ensures var k, guess := FirstKeep(cfg, ms, budget), cfg.firstWindow(budget, cfg.est(ms), |ms|);
            2 <= k <= |ms| && (2 <= guess <= |ms| ==> k == guess) && (guess < 2 ==> k == 2) && (guess > |ms| ==> k == |ms|)
  {
  }

  ghost predicate Fits(cfg: Config, ms: seq<Message>, budget: int, keep: nat)
    requires 1 <= keep <= |ms|
  {
    cfg.est(Raw(ms, keep)) <= budget
  }

  /** Halving from `first` down to `keep`, because `first` does not fit, passes over fitting windows of
      less than twice the size only. */
  ghost predicate HalvedTo(cfg: Config, ms: seq<Message>, budget: int, first: nat, keep: nat) {
    && 1 <= keep <= first <= |ms| && (keep < first ==> !Fits(cfg, ms, budget, first))
    && forall wider :: keep < wider <= first && Fits(cfg, ms, budget, wider) ==> wider < 2 * keep
  }

  /** What a window trim promises: the repaired first message plus a suffix that fits the budget, unless
      it is down to two messages; and among the windows no wider than the first guess, no fitting one is
      twice as wide. */
  ghost predicate WindowOf(cfg: Config, ms: seq<Message>, budget: int, r: seq<Message>) {
    && (exists keep :: HalvedTo(cfg, ms, budget, FirstKeep(cfg, ms, budget), keep)
                       && (Fits(cfg, ms, budget, keep) || keep <= 2) && r == RepairPairing(Raw(ms, keep)))
    && (cfg.est(r) <= budget || |r| <= 2)
  }

  /** Untouched if it fits, else compacted if that fits, else windowed. */
  ghost predicate Trimmed(cfg: Config, ms: seq<Message>, budget: int, r: seq<Message>) {
    if cfg.est(ms) <= budget then r == ms
    else if cfg.est(Compact(cfg, ms)) <= budget then r == Compact(cfg, ms)
    else Paired(r) && WindowOf(cfg, Compact(cfg, ms), budget, r)
  }

  /** A narrower window is a subsequence of a wider one, so it is estimated no higher. */
  lemma NarrowerIsCheaper(cfg: Config, ms: seq<Message>, narrow: nat, wide: nat)
    requires Monotone(cfg.est) && 1 <= narrow <= wide <= |ms|
    ensures cfg.est(Raw(ms, narrow)) <= cfg.est(Raw(ms, wide))
  {
    var a, b := |ms| - narrow + 1, |ms| - wide + 1;
    SubsequenceSelf(ms[a..]);
    SubsequenceDropFront(ms[a..], ms[b..a], ms[a..]);
    assert ms[b..a] + ms[a..] == ms[b..];
    SubsequenceKeepFront([ms[0]], ms[a..], ms[b..]);
  }

  lemma HalveOnce(cfg: Config, ms: seq<Message>, budget: int, first: nat, keep: nat)
    requires Monotone(cfg.est) && HalvedTo(cfg, ms, budget, first, keep) && !Fits(cfg, ms, budget, keep) && keep > 2
    ensures HalvedTo(cfg, ms, budget, first, (keep + 1) / 2)
  {
    hide Monotone, Raw;
    forall wider | (keep + 1) / 2 < wider <= first && Fits(cfg, ms, budget, wider) ensures wider < 2 * ((keep + 1) / 2) {
      if wider >= keep { NarrowerIsCheaper(cfg, ms, keep, wider); }
    }
  }

  lemma NothingIsFree(cfg: Config, ms: seq<Message>)
    requires Monotone(cfg.est)
    ensures ms == [] ==> cfg.est(ms) == 0
  {
  }

  lemma HalvedNot(cfg: Config, ms: seq<Message>, budget: int, first: nat)
    requires 1 <= first <= |ms|
    ensures HalvedTo(cfg, ms, budget, first, first)
  {
  }

  /** The repaired window is what the trim promises. */
  lemma WindowDone(cfg: Config, ms: seq<Message>, budget: int, keep: nat)
    requires Monotone(cfg.est) && 1 <= keep <= |ms| && HalvedTo(cfg, ms, budget, FirstKeep(cfg, ms, budget), keep)
    requires Fits(cfg, ms, budget, keep) || keep <= 2
    ensures var r := RepairPairing(Raw(ms, keep));
            WindowOf(cfg, ms, budget, r) && Paired(r) && (cfg.est(r) <= budget || |r| <= 2)
  {
    hide HalvedTo, RepairPairing, Paired, Monotone;
    RepairIsPaired(Raw(ms, keep));
    RepairIsCheaper(cfg, Raw(ms, keep));
  }

  method Trim(cfg: Config, msgs: seq<Message>, budget0: int) returns (r: seq<Message>)
    requires Monotone(cfg.est)
    ensures Trimmed(cfg, msgs, Budget(cfg, budget0), r)
    ensures Paired(msgs) ==> Paired(r)
    ensures cfg.est(r) <= Budget(cfg, budget0) || |r| <= 2
    ensures budget0 > 0 ==> Trimmed(cfg, msgs, budget0, r) && (cfg.est(r) <= budget0 || |r| <= 2)
    ensures budget0 <= 0 ==> Trimmed(cfg, msgs, cfg.minBudget, r) && (cfg.est(r) <= cfg.minBudget || |r| <= 2)
  {
    hide Subsequence, Monotone, RepairPairing, Paired, WindowOf, HalvedTo;
    var budget := if budget0 <= 0 then cfg.minBudget else budget0;
    if cfg.est(msgs) <= budget { return msgs; }
    var trimmed := CompactMessages(cfg, msgs);
    if Paired(msgs) { ShapeKeepsPaired(msgs, trimmed); }
    if cfg.est(trimmed) <= budget { return trimmed; }
    NothingIsFree(cfg, trimmed);
    var keepCount := cfg.firstWindow(budget, cfg.est(trimmed), |trimmed|);
    if keepCount < 2 { keepCount := 2; }
    if keepCount > |trimmed| { keepCount := |trimmed|; }
    ghost var first := FirstKeep(cfg, trimmed, budget);
    HalvedNot(cfg, trimmed, budget, first);
    while true
      invariant 1 <= keepCount <= |trimmed| && HalvedTo(cfg, trimmed, budget, first, keepCount)
      decreases keepCount
    {
      var result := [trimmed[0]] + trimmed[|trimmed| - keepCount + 1..];
      assert result == Raw(trimmed, keepCount);
      if cfg.est(result) <= budget || keepCount <= 2 {
        r := RepairToolPairing(result);
        WindowDone(cfg, trimmed, budget, keepCount);
        return;
      }
      HalveOnce(cfg, trimmed, budget, first, keepCount);
      keepCount := (keepCount + 1) / 2;
    }
  }

  lemma RepairIsCheaper(cfg: Config, ms: seq<Message>)
    requires Monotone(cfg.est)
    ensures cfg.est(RepairPairing(ms)) <= cfg.est(ms)
  {
    hide RepairPairing;
    RepairIsSubsequence(ms);
  }

  /** Over all widths, no fitting window is twice as wide as the one kept if and only if the first guess
      was not too narrow: twice its width is more than there is, or does not fit. */
  lemma KeepsHalfIff(cfg: Config, ms: seq<Message>, budget: int, first: nat, keep: nat)
    requires Monotone(cfg.est) && HalvedTo(cfg, ms, budget, first, keep)
    ensures (forall wider :: 1 <= wider <= |ms| && Fits(cfg, ms, budget, wider) ==> wider < 2 * keep)
       <==> (2 * first > |ms| || !Fits(cfg, ms, budget, 2 * first))
  {
    hide Monotone, Raw;
    forall wide | first <= wide <= |ms| && Fits(cfg, ms, budget, wide) ensures Fits(cfg, ms, budget, first) {
      NarrowerIsCheaper(cfg, ms, first, wide);
    }
    forall wide | 2 * first <= wide <= |ms| && Fits(cfg, ms, budget, wide) ensures Fits(cfg, ms, budget, 2 * first) {
      NarrowerIsCheaper(cfg, ms, 2 * first, wide);
    }
    if 2 * first <= |ms| && Fits(cfg, ms, budget, 2 * first) { assert keep == first; }
  }

  /** One heavy message makes the ratio guess, `n * budget / est`, too narrow: a window of two is kept
      although one of five fits. */
  lemma NarrowGuessExample(cfg: Config, weight: Message -> nat, a: Message, heavy: Message, b: Message)
    requires Quarters(cfg.est, weight) && cfg.firstWindow(10, 105, 6) == 6 * 10 / 105
    requires a.Msg? && heavy.Msg? && b.Msg? && weight(a) == weight(b) == 4 && weight(heavy) == 400
    ensures var ms := [a, heavy, b, b, b, b];
            FirstKeep(cfg, ms, 10) == 2 && Fits(cfg, ms, 10, 2) && Fits(cfg, ms, 10, 5)
  {
    var ms, bs := [a, heavy, b, b, b, b], [b, b, b, b];
    assert [b][1..] == [] && Total(weight, [b]) == 4;
    assert [b, b][1..] == [b] && Total(weight, [b, b]) == 8;
    assert bs == [b, b] + [b, b] && Total(weight, bs) == 16 by { TotalAppend(weight, [b, b], [b, b]); }
    assert [a][1..] == [] && Total(weight, [a]) == 4;
    assert [heavy][1..] == [] && Total(weight, [heavy]) == 400;
    assert Raw(ms, 2) == [a] + [b] && Raw(ms, 5) == [a] + bs && ms == [a] + ([heavy] + bs);
    TotalAppend(weight, [a], [b]);
    TotalAppend(weight, [a], bs);
    TotalAppend(weight, [heavy], bs);
    TotalAppend(weight, [a], [heavy] + bs);
    assert cfg.est(ms) == Total(weight, ms) / 4;
    assert cfg.est(Raw(ms, 2)) == Total(weight, Raw(ms, 2)) / 4;
    assert cfg.est(Raw(ms, 5)) == Total(weight, Raw(ms, 5)) / 4;
  }

  /** A first message that is neither a tool message nor a caller (a system prompt) survives. */
  lemma WindowKeepsPrompt(ms: seq<Message>, keep: nat)
    requires 1 <= keep <= |ms| && Opens(ms[0]) && !ms[0].IsCaller()
    ensures RepairPairing(Raw(ms, keep)) != [] && RepairPairing(Raw(ms, keep))[0] == ms[0]
  {
    assert Raw(ms, keep)[1..] == ms[|ms| - keep + 1..];
  }

  function WithSummary(cfg: Config, m: Message, text: string): Message {
    if m.Msg? then m.(content := cfg.mergeSummary(m.content, text)) else m
  }

  /** `mergeSummary` is the text surgery of the source wherever that ends. */
  ghost predicate MergesText(cfg: Config) {
    forall prompt, text :: SummaryText.Merge(prompt, text).Some? ==>
      cfg.mergeSummary(prompt, text) == SummaryText.Merge(prompt, text).value
  }

  /** If the next compaction ends, its summary replaces the earlier one in the prompt, instead of joining
      what is left of it, if and only if the prompt has no tag of its own and the earlier summary leaves
      nothing. */
  lemma SummaryReplacesIff(cfg: Config, m: Message, earlier: string, latest: string)
    requires MergesText(cfg) && m.Msg? && SummaryText.Strip(m.content).Some?
    requires SummaryText.Strip(WithSummary(cfg, m, earlier).content).Some?
    ensures var base := SummaryText.Strip(m.content).value;
            WithSummary(cfg, WithSummary(cfg, m, earlier), latest)
            == WithSummary(cfg, m.(content := SummaryText.Trim(base)), latest)
            <==> SummaryText.Tagless(base) && SummaryText.Residue(earlier) == Some("")
  {
    hide SummaryText.Trim, SummaryText.Find, SummaryText.Block, SummaryText.Strip, SummaryText.Residue, SummaryText.Tagless,
         SummaryText.Done;
    var base := SummaryText.Strip(m.content).value;
    SummaryText.StripDone(m.content);
    SummaryText.ReplacedIff(base, earlier);
    SummaryText.TrimmedIsDone(base);
    assert SummaryText.Merge(m.content, earlier) == Some(base + SummaryText.Block(earlier));
    assert WithSummary(cfg, m, earlier).content == base + SummaryText.Block(earlier);
    var left := SummaryText.Strip(base + SummaryText.Block(earlier)).value;
    assert SummaryText.Merge(base + SummaryText.Block(earlier), latest) == Some(left + SummaryText.Block(latest));
    assert SummaryText.Merge(SummaryText.Trim(base), latest) == Some(SummaryText.Trim(base) + SummaryText.Block(latest));
    SummaryText.SameFront(left, SummaryText.Trim(base), SummaryText.Block(latest));
  }

  /** What is left of the budget for the kept tail once the summary has its reserve. */
  function Room(cfg: Config, budget: int): nat {
    var reserve := cfg.summaryReserve(budget);
    var room := budget - (if reserve < 64 then 64 else reserve);
    if room < 1 then 1 else room
  }

  /** The reserve is deducted, at least 64 of it, as long as anything is left. */
  lemma RoomSays(cfg: Config, budget: int)
    ensures var r, reserve := Room(cfg, budget), cfg.summaryReserve(budget);
            && r >= 1
            && (reserve >= 64 && budget > reserve ==> r + reserve == budget)
            && (reserve < 64 && budget > 64 ==> r + 64 == budget)
            && (budget <= reserve || budget <= 64 ==> r == 1)
  {
  }

  /** The sum of the messages' own estimates. */
  function Cost(cfg: Config, ms: seq<Message>): nat {
    if ms == [] then 0 else cfg.est(ms[..1]) + Cost(cfg, ms[1..])
  }

  lemma CostStep(cfg: Config, ms: seq<Message>, k: nat)
    requires k < |ms|
    ensures Cost(cfg, ms[k..]) == cfg.est(ms[k..k + 1]) + Cost(cfg, ms[k + 1..])
  {
    assert ms[k..][..1] == ms[k..k + 1] && ms[k..][1..] == ms[k + 1..];
  }

  /** The tail from `k` on fits the room, and with one more message it would not. */
  ghost predicate LongestTail(cfg: Config, ms: seq<Message>, budget: int, k: nat)
    requires 1 <= k <= |ms|
  {
    Cost(cfg, ms[k..]) <= Room(cfg, budget) && (k > 1 ==> Cost(cfg, ms[k - 1..]) > Room(cfg, budget))
  }

  /** The messages between the first one and the longest tail that fits went into the summary, which
      became part of the first message; the tail stayed. */
  ghost predicate SummarizedAt(cfg: Config, ms: seq<Message>, summarize: seq<Message> -> Option<string>, k: nat, r: seq<Message>)
    requires 2 <= k <= |ms|
  {
    && summarize(ms[1..k]).Some?
    && r == RepairPairing([WithSummary(cfg, ms[0], summarize(ms[1..k]).value)] + ms[k..])
  }

  /** Either a summary of everything before the longest fitting tail, or, when there is nothing to
      summarize or the summarizer fails, the ordinary trim. */
  ghost predicate SummaryTrimmed(cfg: Config, ms: seq<Message>, budget: int, summarize: seq<Message> -> Option<string>, r: seq<Message>) {
    if |ms| < 3 || budget <= 0 then r == ms
    else exists k: nat :: k <= |ms| && SplitFor(cfg, ms, budget, summarize, r, k)
  }

  ghost predicate SplitFor(cfg: Config, ms: seq<Message>, budget: int, summarize: seq<Message> -> Option<string>, r: seq<Message>, k: nat)
    requires k <= |ms|
  {
    && k >= 1 && LongestTail(cfg, ms, budget, k)
    && if k > 1 && summarize(ms[1..k]).Some? then SummarizedAt(cfg, ms, summarize, k, r) else Trimmed(cfg, ms, budget, r)
  }

  method SummaryTrim(cfg: Config, msgs: seq<Message>, budget: int, summarize: seq<Message> -> Option<string>)
    returns (r: seq<Message>)
    requires Monotone(cfg.est)
    ensures SummaryTrimmed(cfg, msgs, budget, summarize, r)
    ensures Paired(msgs) ==> Paired(r)
  {
    hide Trimmed, Monotone, Subsequence, LongestTail, Cost, Room, Paired, RepairPairing;
    if |msgs| < 3 || budget <= 0 { return msgs; }
    var system, tail := msgs[0], msgs[1..];
    var keepCount := TailLength(cfg, msgs, budget);
    ghost var k: nat := |msgs| - keepCount;
    var head, kept := tail[..|tail| - keepCount], tail[|tail| - keepCount..];
    assert head == msgs[1..k] && kept == msgs[k..];
    if |head| == 0 {
      r := Trim(cfg, msgs, budget);
      assert SplitFor(cfg, msgs, budget, summarize, r, k);
      return;
    }
    var summary := summarize(head);
    if summary.None? {
      r := Trim(cfg, msgs, budget);
      assert SplitFor(cfg, msgs, budget, summarize, r, k);
      return;
    }
    r := WithHeadSummarized(cfg, system, kept, summary.value);
    assert SplitFor(cfg, msgs, budget, summarize, r, k);
  }

  /** The summary goes into the first message, in front of the kept tail. */
  method WithHeadSummarized(cfg: Config, first: Message, kept: seq<Message>, summary: string) returns (r: seq<Message>)
    ensures r == RepairPairing([WithSummary(cfg, first, summary)] + kept) && Paired(r)
  {
    hide Paired, RepairPairing;
    var system := first;
    if system.Msg? { system := system.(content := cfg.mergeSummary(system.content, summary)); }
    var result := [system] + kept;
    r := RepairToolPairing(result);
    RepairIsPaired(result);
  }

  /** How many messages of the tail to keep verbatim. */
  method TailLength(cfg: Config, msgs: seq<Message>, budget: int) returns (keepCount: nat)
    requires msgs != []
    ensures keepCount < |msgs| && LongestTail(cfg, msgs, budget, |msgs| - keepCount)
  {
    hide Cost, Room, LongestTail;
    var tail := msgs[1..];
    var tailBudget := SpaceFor(cfg, budget);
    keepCount := 0;
    CostNothing(cfg);
    assert msgs[|msgs|..] == [];
    var i := |tail| - 1;
    while i >= 0
      invariant -1 <= i < |tail| && keepCount == |tail| - 1 - i
      invariant tailBudget >= 0 && tailBudget + Cost(cfg, msgs[i + 2..]) == Room(cfg, budget)
    {
      CostStep(cfg, msgs, i + 1);
      TailSlice(msgs, i);
      var cost := cfg.est(tail[i..i + 1]);
      if cost > tailBudget {
        LongestIs(cfg, msgs, budget, i + 2);
        return;
      }
      tailBudget := tailBudget - cost;
      keepCount := keepCount + 1;
      i := i - 1;
    }
    LongestIs(cfg, msgs, budget, 1);
  }

  method SpaceFor(cfg: Config, budget: int) returns (space: int)
    ensures space == Room(cfg, budget)
  {
    var reserve := cfg.summaryReserve(budget);
    if reserve < 64 { reserve := 64; }
    space := budget - reserve;
    if space < 1 { space := 1; }
  }

  lemma LongestIs(cfg: Config, ms: seq<Message>, budget: int, k: nat)
    requires 1 <= k <= |ms| && Cost(cfg, ms[k..]) <= Room(cfg, budget)
    requires k > 1 ==> Cost(cfg, ms[k - 1..]) > Room(cfg, budget)
    ensures LongestTail(cfg, ms, budget, k)
  {
  }

  lemma TailSlice<T>(ms: seq<T>, i: nat)
    requires i + 1 < |ms|
    ensures ms[1..][i..i + 1] == ms[i + 1..i + 2]
  {
  }

  lemma CostNothing(cfg: Config)
    ensures Cost(cfg, []) == 0
  {
  }

  // ---------------------------------------------------------------- does a summarized history fit?

  /** Rounding each message down loses less than a unit per message. */
  lemma {:induction false} TotalByCost(cfg: Config, weight: Message -> nat, ms: seq<Message>)
    requires Quarters(cfg.est, weight)
    ensures Total(weight, ms) <= 4 * Cost(cfg, ms) + 3 * |ms|
  {
    if ms != [] {
      TotalByCost(cfg, weight, ms[1..]);
      assert ms[..1] == [ms[0]] && [ms[0]][1..] == [];
      assert cfg.est(ms[..1]) == Total(weight, ms[..1]) / 4;
      assert Total(weight, ms[..1]) == if ms[0].Nil? then 0 else weight(ms[0]);
    }
  }

  lemma RepairBehindPrompt(p: Message, tail: seq<Message>)
    requires Opens(p) && !p.IsCaller()
    ensures RepairPairing([p] + tail) == [p] + RepairPairing(tail)
  {
    assert ([p] + tail)[1..] == tail;
  }

  /** What a summarized history weighs: the prompt with its summary, and the repaired tail. */
  lemma SummaryWeight(cfg: Config, weight: Message -> nat, first: Message, text: string, tail: seq<Message>)
    requires Opens(first) && !first.IsCaller()
    ensures var p := WithSummary(cfg, first, text);
            Total(weight, RepairPairing([p] + tail)) == weight(p) + Total(weight, RepairPairing(tail))
  {
    hide RepairPairing;
    var p := WithSummary(cfg, first, text);
    RepairBehindPrompt(p, tail);
    TotalAppend(weight, [p], RepairPairing(tail));
    assert [p][1..] == [] && Total(weight, [p]) == weight(p);
  }

  /** `bound` is the most that the prompt can weigh with a summary in it that the summarizer can return. */
  ghost predicate HeaviestPrompt(cfg: Config, weight: Message -> nat, first: Message, possible: string -> bool, bound: nat) {
    && (forall text :: possible(text) ==> weight(WithSummary(cfg, first, text)) <= bound)
    && exists text :: possible(text) && weight(WithSummary(cfg, first, text)) == bound
  }

  ghost predicate SummaryFits(cfg: Config, first: Message, text: string, tail: seq<Message>, budget: int) {
    cfg.est(RepairPairing([WithSummary(cfg, first, text)] + tail)) <= budget
  }

  /** Decided before the summarizer is called, for the calibrated estimate too: whichever of the summaries
      that are `possible` (texts up to a length limit, say) comes back, the history will fit the budget if
      and only if the heaviest prompt and the repaired tail together do. The room set aside beforehand is
      not enough, as it does not deduct the prompt. */
  lemma SummaryAlwaysFitsIff(cfg: Config, weight: Message -> nat, scale: nat -> nat, first: Message,
                             tail: seq<Message>, budget: int, possible: string -> bool, bound: nat)
    requires Scaled(cfg.est, weight, scale) && Opens(first) && !first.IsCaller()
    requires HeaviestPrompt(cfg, weight, first, possible, bound)
    ensures (forall text :: possible(text) ==> SummaryFits(cfg, first, text, tail, budget))
       <==> scale((bound + Total(weight, RepairPairing(tail))) / 4) <= budget
  {
    hide RepairPairing, WithSummary, SummaryFits;
    var t := Total(weight, RepairPairing(tail));
    if scale((bound + t) / 4) <= budget {
      forall text | possible(text) ensures SummaryFits(cfg, first, text, tail, budget) {
        SummaryFitsWhen(cfg, weight, scale, first, text, tail, budget);
        QuarterGrows(weight(WithSummary(cfg, first, text)) + t, bound + t);
      }
    } else {
      var text :| possible(text) && weight(WithSummary(cfg, first, text)) == bound;
      SummaryFitsWhen(cfg, weight, scale, first, text, tail, budget);
    }
  }

  lemma SummaryFitsWhen(cfg: Config, weight: Message -> nat, scale: nat -> nat, first: Message, text: string,
                        tail: seq<Message>, budget: int)
    requires Scaled(cfg.est, weight, scale) && Opens(first) && !first.IsCaller()
    ensures SummaryFits(cfg, first, text, tail, budget)
       <==> scale((weight(WithSummary(cfg, first, text)) + Total(weight, RepairPairing(tail))) / 4) <= budget
  {
    hide RepairPairing, WithSummary;
    SummaryWeight(cfg, weight, first, text, tail);
  }

  /** `weightedRuneCount`: the CJK block counts four times. */
  function Runes(s: string): nat {
    if s == "" then 0 else (if 0x4E00 <= s[0] as int <= 0x9FFF then 4 else 1) + Runes(s[1..])
  }

  lemma {:induction false} RunesAppend(a: string, b: string)
    ensures Runes(a + b) == Runes(a) + Runes(b)
  {
    if a == "" {
      assert a + b == b;
    } else {
      assert (a + b)[1..] == a[1..] + b;
      RunesAppend(a[1..], b);
    }
  }

  lemma {:induction false} RunesAtMost(s: string)
    ensures Runes(s) <= 4 * |s|
  {
    if s != "" { RunesAtMost(s[1..]); }
  }

  /** The heaviest text of a length. */
  lemma {:induction false} Widest(n: nat) returns (s: string)
    ensures |s| == n && Runes(s) == 4 * n
  {
    if n == 0 {
      s := "";
    } else {
      var rest := Widest(n - 1);
      s := ['\U{4E00}'] + rest;
      assert s[1..] == rest;
    }
  }

  /** `first` with any text weighs `extra` and that text's runes. */
  ghost predicate WeighsRunes(weight: Message -> nat, first: Message, extra: nat)
    requires first.Msg?
  {
    forall text: string :: weight(first.(content := text)) == extra + Runes(text)
  }

  lemma PromptWeight(cfg: Config, weight: Message -> nat, first: Message, extra: nat, text: string)
    requires MergesText(cfg) && first.Msg? && WeighsRunes(weight, first, extra) && SummaryText.Strip(first.content).Some?
    ensures weight(WithSummary(cfg, first, text))
         == extra + Runes(SummaryText.Strip(first.content).value) + Runes(SummaryText.Block("")) + Runes(text)
  {
    hide SummaryText.Strip, SummaryText.Block, Runes;
    var base := SummaryText.Strip(first.content).value;
    assert SummaryText.Merge(first.content, text) == Some(base + SummaryText.Block(text));
    var front, back := SummaryText.BlockAround(text);
    RunesAppend(base, SummaryText.Block(text));
    RunesAppend(front + text, back);
    RunesAppend(front, text);
    RunesAppend(front, back);
  }

  predicate NoLonger(limit: nat, text: string) { |text| <= limit }

  /** The source's own case: the estimate counts runes and summaries have a length limit. Then the
      heaviest prompt is the prompt without its old summary, the markup, and the limit in CJK runes. */
  lemma LimitedSummaries(cfg: Config, weight: Message -> nat, first: Message, extra: nat, limit: nat)
    requires MergesText(cfg) && first.Msg? && WeighsRunes(weight, first, extra) && SummaryText.Strip(first.content).Some?
    ensures HeaviestPrompt(cfg, weight, first, text => NoLonger(limit, text),
                           extra + Runes(SummaryText.Strip(first.content).value) + Runes(SummaryText.Block("")) + 4 * limit)
  {
    hide SummaryText.Strip, SummaryText.Block, Runes, WithSummary, MergesText, WeighsRunes;
    forall text | NoLonger(limit, text)
      ensures weight(WithSummary(cfg, first, text))
           <= extra + Runes(SummaryText.Strip(first.content).value) + Runes(SummaryText.Block("")) + 4 * limit
    {
      PromptWeight(cfg, weight, first, extra, text);
      RunesAtMost(text);
    }
    var longest := Widest(limit);
    PromptWeight(cfg, weight, first, extra, longest);
    assert NoLonger(limit, longest);
  }

  /** So with a length limit on summaries the exact condition is read off the prompt, the kept tail and
      the limit. */
  lemma LimitedSummariesFitIff(cfg: Config, weight: Message -> nat, scale: nat -> nat, first: Message, extra: nat,
                               tail: seq<Message>, budget: int, limit: nat)
    requires Scaled(cfg.est, weight, scale) && Opens(first) && !first.IsCaller()
    requires MergesText(cfg) && WeighsRunes(weight, first, extra) && SummaryText.Strip(first.content).Some?
    ensures var heaviest := extra + Runes(SummaryText.Strip(first.content).value) + Runes(SummaryText.Block("")) + 4 * limit;
            (forall text :: NoLonger(limit, text) ==> SummaryFits(cfg, first, text, tail, budget))
            <==> scale((heaviest + Total(weight, RepairPairing(tail))) / 4) <= budget
  {
    hide SummaryText.Strip, SummaryText.Block, Runes, WithSummary, MergesText, WeighsRunes, HeaviestPrompt, SummaryFits,
         RepairPairing, NoLonger;
    var heaviest := extra + Runes(SummaryText.Strip(first.content).value) + Runes(SummaryText.Block("")) + 4 * limit;
    LimitedSummaries(cfg, weight, first, extra, limit);
    SummaryAlwaysFitsIff(cfg, weight, scale, first, tail, budget, text => NoLonger(limit, text), heaviest);
  }

  /** Uncalibrated, a prompt within the reserve, less what rounding the kept messages loses, fits. */
  lemma PromptWithinReserveFits(cfg: Config, weight: Message -> nat, ms: seq<Message>, budget: int, k: nat, text: string)
    requires Quarters(cfg.est, weight) && budget > 0
    requires 2 <= k <= |ms| && Opens(ms[0]) && !ms[0].IsCaller() && LongestTail(cfg, ms, budget, k)
    requires weight(WithSummary(cfg, ms[0], text)) + 3 * |ms[k..]| <= 4 * (budget - Room(cfg, budget)) + 3
    ensures SummaryFits(cfg, ms[0], text, ms[k..], budget)
  {
    hide RepairPairing, Cost, Room, Subsequence, WithSummary;
    var tail := ms[k..];
    SummaryWeight(cfg, weight, ms[0], text, tail);
    RepairIsSubsequence(tail);
    TotalOfSubsequence(weight, RepairPairing(tail), tail);
    TotalByCost(cfg, weight, tail);
  }

  /** A prompt that is over the budget by itself stays over it after the compaction: three messages,
      budget 100, a prompt of estimate 110 that becomes one of 120 with its summary. */
  lemma SummaryOverBudgetExample(cfg: Config, weight: Message -> nat, prompt: Message, m: Message, text: string)
    requires Quarters(cfg.est, weight) && cfg.summaryReserve(100) == 15
    requires Opens(prompt) && !prompt.IsCaller() && Opens(m) && !m.IsCaller()
    requires weight(prompt) == 440 && weight(m) == 80 && weight(WithSummary(cfg, prompt, text)) == 480
    ensures var ms := [prompt, m, m];
            LongestTail(cfg, ms, 100, 2) && cfg.est(RepairPairing([WithSummary(cfg, prompt, text)] + ms[2..])) == 140
  {
    hide WithSummary;
    var ms := [prompt, m, m];
    assert ms[2..] == [m] && ms[1..] == [m, m] && [m, m][1..] == [m] && [m][1..] == [] && [m, m][..1] == [m] == [m][..1];
    assert Total(weight, [m]) == 80 && cfg.est([m]) == 20;
    assert Cost(cfg, [m]) == 20 && Cost(cfg, [m, m]) == 40 && Room(cfg, 100) == 36;
    assert RepairPairing([m]) == [m];
    SummaryWeight(cfg, weight, prompt, text, [m]);
  }

  /** What the step hook makes of a history: nothing while it fits, shorter tool results near the
      budget, a trim or a summary beyond it. */
  ghost predicate Guarded(cfg: Config, msgs: seq<Message>, r: seq<Message>) {
    if msgs == [] || cfg.tokenBudget <= 0 then r == msgs
    else if cfg.est(msgs) <= cfg.tokenBudget then r == if cfg.est(msgs) > cfg.threshold then Compact(cfg, msgs) else msgs
    else match cfg.summarizer
         case None => exists t :: Trimmed(cfg, msgs, cfg.tokenBudget, t) && r == Compact(cfg, t)
         case Some(f) => SummaryTrimmed(cfg, msgs, cfg.tokenBudget, f, r)
  }

  /** The step hook. */
  method OnStepStart(cfg: Config, msgs: seq<Message>) returns (r: seq<Message>)
    requires Monotone(cfg.est)
    ensures Guarded(cfg, msgs, r)
    ensures Paired(msgs) ==> Paired(r)
  {
    if |msgs| < 1 || cfg.tokenBudget <= 0 { return msgs; }
    var est := cfg.est(msgs);
    if est > cfg.tokenBudget {
      match cfg.summarizer {
        case Some(f) =>
          r := SummaryTrim(cfg, msgs, cfg.tokenBudget, f);
        case None =>
          var t := Trim(cfg, msgs, cfg.tokenBudget);
          r := CompactMessages(cfg, t);
          if Paired(t) { ShapeKeepsPaired(t, r); }
      }
    } else if est > cfg.threshold {
      r := CompactMessages(cfg, msgs);
      if Paired(msgs) { ShapeKeepsPaired(msgs, r); }
    } else {
      r := msgs;
    }
  }
}

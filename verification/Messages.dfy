/** Conversation messages and the pairing rule providers enforce: every assistant message with tool
    calls is directly followed by tool messages answering all of them, and no tool message stands
    anywhere else (core/types/message.go, module/guard/guard.go). */
module Messages {
  datatype Role = System | User | Assistant | Tool | Custom(name: string)

  datatype ToolCall = ToolCall(id: string, name: string, args: string)

  /** A nil pointer, or a message. */
  datatype Message = Nil | Msg(role: Role, content: string, calls: seq<ToolCall>, callId: string, toolName: string) {
    predicate IsTool() { Msg? && role == Tool }

    /** An assistant message that calls tools. */
    predicate IsCaller() { Msg? && role == Assistant && calls != [] }
  }

  function ToolMessage(content: string, callId: string, toolName: string): Message {
    Msg(Tool, content, [], callId, toolName)
  }

  // ---------------------------------------------------------------- the rule

  /** `ms[j]` answers `id` in the block of tool messages right behind `ms[i]`. */
  ghost predicate AnsweredAt(ms: seq<Message>, i: int, j: int, id: string) {
    0 <= i < j < |ms| && ms[j].IsTool() && ms[j].callId == id && OnlyToolsBetween(ms, i, j)
  }

  ghost predicate Answered(ms: seq<Message>, i: int, id: string) {
    exists j :: AnsweredAt(ms, i, j, id)
  }

  ghost predicate OnlyToolsBetween(ms: seq<Message>, i: int, j: int) {
    0 <= i && j <= |ms| && forall k :: i < k < j ==> ms[k].IsTool()
  }

  ghost predicate AllAnswered(ms: seq<Message>, i: nat)
    requires i < |ms| && ms[i].Msg?
  {
    forall c :: c in ms[i].calls ==> c.id != "" && Answered(ms, i, c.id)
  }

  ghost predicate BehindCaller(ms: seq<Message>, i: nat) {
    exists k :: 0 <= k < i < |ms| && ms[k].IsCaller() && OnlyToolsBetween(ms, k, i)
  }

  ghost predicate WellPaired(ms: seq<Message>) {
    forall i :: 0 <= i < |ms| ==>
      && ms[i].Msg?
      && (ms[i].IsCaller() ==> AllAnswered(ms, i))
      && (ms[i].IsTool() ==> BehindCaller(ms, i))
  }

  // ---------------------------------------------------------------- the same rule, block by block

  /** Length of the run of tool messages at the front. */
  function ToolRun(ms: seq<Message>): (k: nat)
    ensures k <= |ms|
    ensures forall i :: 0 <= i < k ==> ms[i].IsTool()
    ensures k < |ms| ==> !ms[k].IsTool()
  {
    if ms != [] && ms[0].IsTool() then 1 + ToolRun(ms[1..]) else 0
  }

  /** Every call has a non-empty ID and an answer among `tools`. */
  predicate Complete(calls: seq<ToolCall>, tools: seq<Message>) {
    forall c :: c in calls ==> c.id != "" && HasAnswer(tools, c.id)
  }

  predicate HasAnswer(tools: seq<Message>, id: string) {
    exists m :: m in tools && m.Msg? && m.callId == id
  }

  predicate Paired(ms: seq<Message>) {
    if ms == [] then true
    else if ms[0].Nil? || ms[0].IsTool() then false
    else if !ms[0].IsCaller() then Paired(ms[1..])
    else
      var k := ToolRun(ms[1..]);
      Complete(ms[0].calls, ms[1..][..k]) && Paired(ms[1..][k..])
  }

  /** The two forms agree. */
  lemma {:induction false} PairedIffWellPaired(ms: seq<Message>)
    ensures Paired(ms) <==> WellPaired(ms)
    decreases |ms|
  {
    if ms == [] {
    } else if ms[0].Nil? || ms[0].IsTool() {
      assert !BehindCaller(ms, 0);
    } else {
      var k := if ms[0].IsCaller() then ToolRun(ms[1..]) else 0;
      assert ms[1..][k..] == ms[1 + k..];
      PairedIffWellPaired(ms[1 + k..]);
      hide WellPaired;
      WellPairedParts(ms, k);
    }
  }

  /** The rule holds of a history exactly when it holds of its first block and of the rest. */
  lemma WellPairedParts(ms: seq<Message>, k: nat)
    requires ms != [] && ms[0].Msg? && !ms[0].IsTool() && k == if ms[0].IsCaller() then ToolRun(ms[1..]) else 0
    ensures WellPaired(ms) <==> (ms[0].IsCaller() ==> Complete(ms[0].calls, ms[1..][..k])) && WellPaired(ms[1 + k..])
  {
    hide AllAnswered, BehindCaller, Complete, ToolRun;
    var rest := ms[1 + k..];
    RestInside(ms, k);
    if ms[0].IsCaller() { HeadBlock(ms, k); }
    assert forall i :: 0 <= i < |rest| ==> rest[i] == ms[1 + k + i];
    if WellPaired(rest) && (ms[0].IsCaller() ==> AllAnswered(ms, 0)) {
      forall i | 0 <= i < |ms|
        ensures ms[i].Msg? && (ms[i].IsCaller() ==> AllAnswered(ms, i)) && (ms[i].IsTool() ==> BehindCaller(ms, i))
      {
        if i > k { assert ms[i] == rest[i - k - 1]; }
      }
    }
    if WellPaired(ms) {
      forall i | 0 <= i < |rest|
        ensures rest[i].Msg? && (rest[i].IsCaller() ==> AllAnswered(rest, i)) && (rest[i].IsTool() ==> BehindCaller(rest, i))
      {
        assert rest[i] == ms[1 + k + i];
      }
    }
  }

  /** The first block is right exactly when its caller is completely answered. */
  lemma HeadBlock(ms: seq<Message>, k: nat)
    requires ms != [] && ms[0].IsCaller() && k == ToolRun(ms[1..])
    ensures AllAnswered(ms, 0) <==> Complete(ms[0].calls, ms[1..][..k])
    ensures forall i :: 1 <= i <= k ==> ms[i].IsTool() && BehindCaller(ms, i)
  {
    var tools := ms[1..][..k];
    assert forall i :: 1 <= i <= k ==> ms[i] == ms[1..][i - 1] && ms[i] == tools[i - 1];
    assert k + 1 < |ms| ==> ms[k + 1] == ms[1..][k];
    forall i | 1 <= i <= k ensures BehindCaller(ms, i) {
      assert OnlyToolsBetween(ms, 0, i);
    }
    forall id ensures Answered(ms, 0, id) <==> HasAnswer(tools, id) {
      if Answered(ms, 0, id) {
        var j :| AnsweredAt(ms, 0, j, id);
        assert j <= k && tools[j - 1] in tools;
      }
      if HasAnswer(tools, id) {
        var m :| m in tools && m.Msg? && m.callId == id;
        var j :| 0 <= j < k && tools[j] == m;
        assert AnsweredAt(ms, 0, j + 1, id);
      }
    }
  }

  /** Past the first block the rule does not look back. */
  lemma RestInside(ms: seq<Message>, k: nat)
    requires ms != [] && ms[0].Msg? && !ms[0].IsTool() && k == if ms[0].IsCaller() then ToolRun(ms[1..]) else 0
    ensures var rest := ms[1 + k..];
            forall i :: 0 <= i < |rest| && rest[i].Msg? ==>
              && (AllAnswered(rest, i) <==> AllAnswered(ms, 1 + k + i))
              && (rest[i].IsTool() ==> (BehindCaller(rest, i) <==> BehindCaller(ms, 1 + k + i)))
  {
    var rest := ms[1 + k..];
    assert forall i :: 0 <= i < |rest| ==> rest[i] == ms[1 + k + i];
    assert 1 + k < |ms| && ms[0].IsCaller() ==> !ms[1..][k].IsTool();
    forall i | 0 <= i < |rest| && rest[i].Msg?
      ensures AllAnswered(rest, i) <==> AllAnswered(ms, 1 + k + i)
      ensures rest[i].IsTool() ==> (BehindCaller(rest, i) <==> BehindCaller(ms, 1 + k + i))
    {
      forall c | c in rest[i].calls ensures Answered(rest, i, c.id) <==> Answered(ms, 1 + k + i, c.id) {
        ShiftAnswered(ms, 1 + k, i, c.id);
      }
      if rest[i].IsTool() { ShiftBehind(ms, k, i); }
    }
  }

  lemma ShiftBetween(ms: seq<Message>, d: nat, i: int, j: int)
    requires d <= |ms| && 0 <= i
    ensures OnlyToolsBetween(ms[d..], i, j) <==> OnlyToolsBetween(ms, d + i, d + j)
  {
    var rest := ms[d..];
    assert forall x :: 0 <= x < |rest| ==> rest[x] == ms[d + x];
    if OnlyToolsBetween(rest, i, j) {
      assert forall x :: d + i < x < d + j ==> ms[x] == rest[x - d];
    }
  }

  lemma ShiftAnswered(ms: seq<Message>, d: nat, i: nat, id: string)
    requires d + i < |ms|
    ensures Answered(ms[d..], i, id) <==> Answered(ms, d + i, id)
  {
    var rest := ms[d..];
    if Answered(rest, i, id) {
      var j :| AnsweredAt(rest, i, j, id);
      ShiftBetween(ms, d, i, j);
      assert AnsweredAt(ms, d + i, d + j, id);
    }
    if Answered(ms, d + i, id) {
      var j :| AnsweredAt(ms, d + i, j, id);
      ShiftBetween(ms, d, i, j - d);
      assert AnsweredAt(rest, i, j - d, id);
    }
  }

  lemma ShiftBehind(ms: seq<Message>, k: nat, i: nat)
    requires 1 + k + i < |ms| && !ms[0].IsTool()
    requires k == if ms[0].IsCaller() then ToolRun(ms[1..]) else 0
    requires ms[1 + k + i].IsTool()
    ensures BehindCaller(ms[1 + k..], i) <==> BehindCaller(ms, 1 + k + i)
  {
    hide ToolRun;
    var d := 1 + k;
    var rest := ms[d..];
    if BehindCaller(rest, i) {
      var x :| 0 <= x < i < |rest| && rest[x].IsCaller() && OnlyToolsBetween(rest, x, i);
      ShiftBetween(ms, d, x, i);
      assert ms[d + x] == rest[x];
    }
    if BehindCaller(ms, d + i) {
      var x :| 0 <= x < d + i < |ms| && ms[x].IsCaller() && OnlyToolsBetween(ms, x, d + i);
      assert forall y :: 1 <= y <= k ==> ms[y] == ms[1..][y - 1] && ms[y].IsTool();
      assert ms[0].IsCaller() ==> ms[1..][k] == ms[d] && !ms[d].IsTool();
      assert x >= d;
      ShiftBetween(ms, d, x - d, i);
      assert rest[x - d] == ms[x];
    }
  }

  // ---------------------------------------------------------------- what keeps the rule

  /** A message that is neither nil nor a tool message. */
  predicate Opens(m: Message) { m.Msg? && !m.IsTool() }

  lemma ToolRunAppend(ms: seq<Message>, more: seq<Message>)
    requires more == [] || !more[0].IsTool()
    ensures ToolRun(ms + more) == ToolRun(ms)
  {
    if ms != [] && ms[0].IsTool() {
      assert (ms + more)[1..] == ms[1..] + more;
      ToolRunAppend(ms[1..], more);
    } else if ms == [] {
      assert ms + more == more;
    }
  }

  lemma StartsWithoutTool(ms: seq<Message>)
    requires Paired(ms)
    ensures ms == [] || !ms[0].IsTool()
  {
  }

  lemma SplitBehind<T>(a: seq<T>, b: seq<T>, k: nat)
    requires k <= |a|
    ensures (a + b)[..k] == a[..k] && (a + b)[k..] == a[k..] + b
  {
  }

  /** Well-paired pieces concatenate. */
  lemma {:induction false} PairedAppend(a: seq<Message>, b: seq<Message>)
    requires Paired(a) && Paired(b)
    ensures Paired(a + b)
    decreases |a|
  {
    if a == [] {
      assert a + b == b;
    } else {
      hide ToolRun, Complete;
      assert (a + b)[0] == a[0] && (a + b)[1..] == a[1..] + b;
      if a[0].IsCaller() {
        var k := ToolRun(a[1..]);
        StartsWithoutTool(b);
        ToolRunAppend(a[1..], b);
        SplitBehind(a[1..], b, k);
        PairedAppend(a[1..][k..], b);
      } else {
        PairedAppend(a[1..], b);
      }
    }
  }

  lemma {:induction false} AllToolsRun(ts: seq<Message>)
    requires forall m :: m in ts ==> m.IsTool()
    ensures ToolRun(ts) == |ts|
  {
    if ts != [] {
      assert ts[0] in ts && forall m :: m in ts[1..] ==> m in ts;
      AllToolsRun(ts[1..]);
    }
  }

  /** One caller with all its answers, and then a well-paired rest. */
  lemma BlockPaired(m: Message, ts: seq<Message>, rest: seq<Message>)
    requires m.IsCaller() && (forall t :: t in ts ==> t.IsTool()) && Complete(m.calls, ts) && Paired(rest)
    ensures Paired([m] + ts + rest)
  {
    var ms := [m] + ts + rest;
    AllToolsRun(ts);
    ToolRunAppend(ts, rest);
    assert ms[1..] == ts + rest;
    assert ms[1..][..|ts|] == ts && ms[1..][|ts|..] == rest;
  }

  lemma SinglePaired(m: Message)
    requires Opens(m) && !m.IsCaller()
    ensures Paired([m])
  {
    assert [m][1..] == [];
  }

  /** The parts of a message that pairing looks at. */
  predicate SameShape(a: Message, b: Message) {
    if a.Nil? then b.Nil? else b.Msg? && a.role == b.role && a.calls == b.calls && a.callId == b.callId
  }

  predicate SameShapes(a: seq<Message>, b: seq<Message>) {
    |a| == |b| && forall i :: 0 <= i < |a| ==> SameShape(a[i], b[i])
  }

  lemma ToolRunShape(a: seq<Message>, b: seq<Message>)
    requires SameShapes(a, b)
    ensures ToolRun(a) == ToolRun(b)
  {
    if a != [] && a[0].IsTool() { ToolRunShape(a[1..], b[1..]); }
  }

  lemma CompleteShape(calls: seq<ToolCall>, a: seq<Message>, b: seq<Message>)
    requires SameShapes(a, b) && Complete(calls, a)
    ensures Complete(calls, b)
  {
    forall c | c in calls ensures c.id != "" && HasAnswer(b, c.id) {
      var m :| m in a && m.Msg? && m.callId == c.id;
      var i :| 0 <= i < |a| && a[i] == m;
      assert SameShape(a[i], b[i]) && b[i] in b;
    }
  }

  /** Rewriting contents does not break pairs. */
  lemma {:induction false} ShapeKeepsPaired(a: seq<Message>, b: seq<Message>)
    requires SameShapes(a, b) && Paired(a)
    ensures Paired(b)
    decreases |a|
  {
    if a != [] {
      assert SameShape(a[0], b[0]);
      if a[0].IsCaller() {
        var k := ToolRun(a[1..]);
        ToolRunShape(a[1..], b[1..]);
        CompleteShape(a[0].calls, a[1..][..k], b[1..][..k]);
        ShapeKeepsPaired(a[1..][k..], b[1..][k..]);
      } else {
        ShapeKeepsPaired(a[1..], b[1..]);
      }
    }
  }
}

/** Executing one batch of tool calls (core/runtime/runtime.go `ExecTools`, core/orchestrate
    `ExecToolsConcurrentResults`). Tools and hooks are arbitrary: `World` says what each attempt at
    each call comes to. */
module ToolExec {
  import opened Options
  import opened Messages

  /** What one execution of one call comes to. */
  datatype Outcome = NotFound | TimedOut | Errored(error: string) | Panicked(reason: string) | Succeeded(content: string)

  predicate Fails(o: Outcome) { !o.Succeeded? }

  datatype CallHook = RejectCall(error: string) | KeepCall | RewriteCall(name: string, args: string)

  datatype ResultHook = RejectResult(error: string) | KeepResult | RewriteResult(content: string)

  /** Arbitrary surroundings: `payload` wraps an error text, with extra fields, `outcome(a, i)` is what
      attempt `a` at call `i` comes to, and `waitAborted(a)` says the context ended while waiting to start
      attempt `a`. */
  datatype World = World(
    hasRegistry: bool,
    freshId: nat -> string,
    payload: (string, map<string, string>) -> string,
    outcome: (nat, nat) -> Outcome,
    onCall: (nat, ToolCall) -> CallHook,
    onResult: (nat, Message) -> ResultHook,
    retryOnTool: bool,
    maxRetries: int,
    waitAborted: nat -> bool)

  /** `NormalizeToolCall`: an empty ID becomes "call_" and a session id; empty arguments become "{}". */
  function Normalize(w: World, i: nat, c: ToolCall): (r: ToolCall)
    ensures r.id != "" && (c.id != "" ==> r.id == c.id)
  {
    c.(id := if c.id == "" then "call_" + w.freshId(i) else c.id, args := if c.args == "" then "{}" else c.args)
  }

  /** Normalizing fills in what is empty and keeps everything else. */
  lemma NormalizeSays(w: World, i: nat, c: ToolCall)
    ensures var r := Normalize(w, i, c);
            && r.name == c.name
            && (c.id == "" ==> r.id == "call_" + w.freshId(i)) && (c.id != "" ==> r.id == c.id)
            && (c.args == "" ==> r.args == "{}") && (c.args != "" ==> r.args == c.args)
  {
  }

  function Reply(w: World, text: string, c: ToolCall): Message { ToolMessage(w.payload(text, map[]), c.id, c.name) }

  /** One slot of a batch: always a message for its own call, and whether it failed. */
  datatype ToolResult = ToolResult(message: Message, failed: bool)

  function ResultOf(w: World, c: Option<ToolCall>, o: Outcome): ToolResult {
    match c
    case None => ToolResult(ToolMessage(w.payload("tool call is nil", map[]), "", ""), true)
    case Some(c) =>
      if !w.hasRegistry then ToolResult(Reply(w, "no tool registry", c), true) else
      match o
      case NotFound => ToolResult(Reply(w, "tool not found: " + c.name, c), true)
      case TimedOut =>
        ToolResult(ToolMessage(w.payload("tool call timed out", map["code" := "TOOL_TIMEOUT", "tool" := c.name]), c.id, c.name), true)
      case Errored(e) => ToolResult(Reply(w, e, c), true)
      case Panicked(r) => ToolResult(Reply(w, "tool panicked: " + r, c), true)
      case Succeeded(t) => ToolResult(ToolMessage(t, c.id, c.name), false)
  }

  function UpTo(n: nat): (r: set<nat>)
    ensures forall i: nat :: i in r <==> i < n
  {
    if n == 0 then {} else UpTo(n - 1) + {n - 1}
  }

  /** What stands in a slot, spelled out: the tool's own text exactly when it succeeded, and otherwise the
      error of its own case; always with the call's ID and name. */
  lemma ResultSays(w: World, c: ToolCall, o: Outcome)
    ensures var r := ResultOf(w, Some(c), o);
            && r.message.Msg? && r.message.role == Tool && r.message.calls == []
            && r.message.callId == c.id && r.message.toolName == c.name
            && (!w.hasRegistry ==> r.failed && r.message.content == w.payload("no tool registry", map[]))
            && (w.hasRegistry ==> (r.failed <==> !o.Succeeded?))
            && (w.hasRegistry ==> match o
                                  case NotFound => r.message.content == w.payload("tool not found: " + c.name, map[])
                                  case TimedOut => r.message.content == w.payload("tool call timed out", map["code" := "TOOL_TIMEOUT", "tool" := c.name])
                                  case Errored(e) => r.message.content == w.payload(e, map[])
                                  case Panicked(p) => r.message.content == w.payload("tool panicked: " + p, map[])
                                  case Succeeded(t) => r.message.content == t)
  {
  }

  /** A nil call stays nil. */
  function NormalizeSlot(w: World, i: nat, c: Option<ToolCall>): Option<ToolCall> {
    match c case None => None case Some(c) => Some(Normalize(w, i, c))
  }

  lemma SlotsSay(w: World)
    ensures forall c: Option<ToolCall>, o :: var r := ResultOf(w, c, o);
              if w.hasRegistry && c.Some? && o.Succeeded? then r == ToolResult(ToolMessage(o.content, c.value.id, c.value.name), false)
              else r.failed
  {
  }

  /** Runs the calls concurrently: each goroutine normalizes its own call and fills its own slot, in
      whatever order they end. */
  method ExecConcurrent(w: World, calls: array<Option<ToolCall>>, outcome: nat -> Outcome) returns (results: array<ToolResult>)
    modifies calls
    ensures fresh(results) && results.Length == calls.Length
    ensures forall i :: 0 <= i < calls.Length ==>
      calls[i] == NormalizeSlot(w, i, old(calls[i])) && results[i] == ResultOf(w, calls[i], outcome(i))
    ensures forall i :: 0 <= i < calls.Length && w.hasRegistry && calls[i].Some? && outcome(i).Succeeded? ==>
      results[i] == ToolResult(ToolMessage(outcome(i).content, calls[i].value.id, calls[i].value.name), false)
    ensures forall i :: 0 <= i < calls.Length && !(w.hasRegistry && calls[i].Some? && outcome(i).Succeeded?) ==> results[i].failed
  {
    hide ResultOf, NormalizeSlot;
    SlotsSay(w);
    results := new ToolResult[calls.Length](i => ToolResult(Nil, true));
    var running := UpTo(calls.Length);
    while running != {}
      invariant running <= UpTo(calls.Length)
      invariant forall i :: 0 <= i < calls.Length && i in running ==> calls[i] == old(calls[i])
      invariant forall i :: 0 <= i < calls.Length && i !in running ==>
        calls[i] == NormalizeSlot(w, i, old(calls[i])) && results[i] == ResultOf(w, calls[i], outcome(i))
      decreases running
    {
      var i :| i in running;
      calls[i] := NormalizeSlot(w, i, calls[i]);
      results[i] := ResultOf(w, calls[i], outcome(i));
      running := running - {i};
    }
  }

  /** How often each call was executed: `n[i]` times, all but the last of them failures. */
  ghost predicate RunsOf(w: World, calls: seq<ToolCall>, n: seq<nat>, attempts: nat) {
    && |n| == |calls|
    && forall i :: 0 <= i < |n| ==>
      && 1 <= n[i] <= attempts
      && (forall a :: 0 <= a < n[i] - 1 ==> Fails(w.outcome(a, i)))
  }

  /** Slot `i` holds the outcome of call `i`'s own last execution. */
  ghost predicate LastOutcomes(w: World, calls: seq<ToolCall>, n: seq<nat>, results: seq<ToolResult>) {
    && |n| == |calls| == |results|
    && forall i :: 0 <= i < |n| ==> n[i] >= 1 && results[i] == ResultOf(w, Some(calls[i]), w.outcome(n[i] - 1, i))
  }

  function MaxAttempts(w: World): nat { if w.retryOnTool && w.maxRetries > 0 then 1 + w.maxRetries else 1 }

  /** Calls whose last result is a failure, ascending: the ones the next attempt repeats. */
  method CollectFailed(results: array<ToolResult>) returns (idx: seq<nat>)
    ensures forall j :: 0 <= j < |idx| ==> idx[j] < results.Length && results[idx[j]].failed
    ensures forall i :: 0 <= i < results.Length && results[i].failed ==> i in idx
    ensures forall j, k :: 0 <= j < k < |idx| ==> idx[j] < idx[k]
  {
    idx := [];
    for i := 0 to results.Length
      invariant forall j :: 0 <= j < |idx| ==> idx[j] < i && results[idx[j]].failed
      invariant forall x :: 0 <= x < i && results[x].failed ==> x in idx
      invariant forall j, k :: 0 <= j < k < |idx| ==> idx[j] < idx[k]
    {
      if results[i].failed { idx := idx + [i]; }
    }
  }

  /** Calls that normalizing does not change. */
  ghost predicate AllNormalized(calls: seq<ToolCall>) { forall c :: c in calls ==> c.id != "" && c.args != "" }

  /** Executes the batch, repeating the failed calls while retries are left. */
  method ExecWithRetry(w: World, calls: array<ToolCall>) returns (results: array<ToolResult>, ghost n: seq<nat>)
    requires w.hasRegistry
    modifies calls
    ensures fresh(results) && results.Length == calls.Length
    ensures forall i :: 0 <= i < calls.Length ==> calls[i] == Normalize(w, i, old(calls[i]))
    ensures RunsOf(w, calls[..], n, MaxAttempts(w)) && LastOutcomes(w, calls[..], n, results[..])
    ensures forall i :: 0 <= i < calls.Length && n[i] > 0 && Fails(w.outcome(n[i] - 1, i)) ==>
              n[i] == MaxAttempts(w) || w.waitAborted(n[i])
  {
    hide ResultOf, Normalize, LastOutcomes, RunsOf;
    results, n := ExecAll(w, calls);
    if !w.retryOnTool || w.maxRetries <= 0 { return; }
    n := RetryFailed(w, calls[..], results);
  }

  /** The first attempt at every call of the batch. */
  method ExecAll(w: World, calls: array<ToolCall>) returns (results: array<ToolResult>, ghost n: seq<nat>)
    modifies calls
    ensures fresh(results) && results.Length == calls.Length && n == seq(calls.Length, i => 1)
    ensures forall i :: 0 <= i < calls.Length ==> calls[i] == Normalize(w, i, old(calls[i]))
    ensures AllNormalized(calls[..])
    ensures RunsOf(w, calls[..], n, 1) && LastOutcomes(w, calls[..], n, results[..])
  {
    hide ResultOf;
    var all := new Option<ToolCall>[calls.Length](i requires 0 <= i < calls.Length reads calls => Some(calls[i]));
    results := ExecConcurrent(w, all, (i: nat) => w.outcome(0, i));
    n := seq(calls.Length, i => 1);
    for i := 0 to calls.Length
      invariant fresh(results) && results.Length == calls.Length == all.Length && fresh(all)
      invariant forall j :: 0 <= j < calls.Length ==>
        all[j] == Some(Normalize(w, j, old(calls[j]))) && results[j] == ResultOf(w, all[j], w.outcome(0, j))
      invariant forall j :: 0 <= j < i ==> calls[j] == Normalize(w, j, old(calls[j]))
    {
      calls[i] := all[i].value;
    }
  }

  /** Repeats what failed, until nothing did, the retries are used up or a wait is aborted. */
  method RetryFailed(w: World, calls: seq<ToolCall>, results: array<ToolResult>) returns (ghost n: seq<nat>)
    requires w.hasRegistry && w.maxRetries > 0 && results.Length == |calls| && AllNormalized(calls)
    requires LastOutcomes(w, calls, seq(|calls|, i => 1), results[..])
    modifies results
    ensures RunsOf(w, calls, n, 1 + w.maxRetries) && LastOutcomes(w, calls, n, results[..])
    ensures forall i :: 0 <= i < |calls| && n[i] > 0 && Fails(w.outcome(n[i] - 1, i)) ==>
              n[i] == 1 + w.maxRetries || w.waitAborted(n[i])
  {
    hide ResultOf, AllNormalized;
    FailedResults(w);
    n := seq(|calls|, i => 1);
    var attempt := 1;
    while attempt <= w.maxRetries
      invariant 1 <= attempt <= w.maxRetries + 1
      invariant RunsOf(w, calls, n, attempt) && LastOutcomes(w, calls, n, results[..])
      invariant forall i :: 0 <= i < |calls| && n[i] > 0 && Fails(w.outcome(n[i] - 1, i)) ==> n[i] == attempt
      decreases w.maxRetries + 1 - attempt
    {
      var retryIdx := CollectFailed(results);
      if |retryIdx| == 0 {
        assert forall i :: 0 <= i < |calls| ==> !results[i].failed;
        break;
      }
      if w.waitAborted(attempt) { break; }
      var retryResults := ExecSome(w, calls, retryIdx, attempt);
      n := Overwrite(w, calls, results, n, retryIdx, retryResults, attempt);
      attempt := attempt + 1;
    }
  }

  /** One more attempt at the calls of `idx`. */
  method ExecSome(w: World, calls: seq<ToolCall>, idx: seq<nat>, attempt: nat) returns (results: array<ToolResult>)
    requires AllNormalized(calls) && forall j :: 0 <= j < |idx| ==> idx[j] < |calls|
    ensures fresh(results) && results.Length == |idx|
    ensures forall j :: 0 <= j < |idx| ==> results[j] == ResultOf(w, Some(calls[idx[j]]), w.outcome(attempt, idx[j]))
  {
    hide ResultOf;
    var some := new Option<ToolCall>[|idx|](j requires 0 <= j < |idx| => Some(calls[idx[j]]));
    results := ExecConcurrent(w, some, (j: nat) => if j < |idx| then w.outcome(attempt, idx[j]) else NotFound);
  }

  /** A result is marked failed exactly when its outcome is a failure. */
  lemma FailedResults(w: World)
    requires w.hasRegistry
    ensures forall c: ToolCall, o :: ResultOf(w, Some(c), o).failed <==> Fails(o)
  {
  }

  /** Puts each retried call's new result into its own slot. */
  method Overwrite(ghost w: World, ghost calls: seq<ToolCall>, results: array<ToolResult>, ghost n0: seq<nat>,
                   idx: seq<nat>, retried: array<ToolResult>, ghost attempt: nat)
    returns (ghost n: seq<nat>)
    requires w.hasRegistry
    requires results.Length == |calls| && RunsOf(w, calls, n0, attempt) && LastOutcomes(w, calls, n0, results[..])
    requires forall i :: 0 <= i < |calls| && Fails(w.outcome(n0[i] - 1, i)) ==> n0[i] == attempt
    requires results != retried && retried.Length == |idx|
    requires forall j :: 0 <= j < |idx| ==> idx[j] < results.Length && results[idx[j]].failed
    requires forall i :: 0 <= i < |calls| && results[i].failed ==> i in idx
    requires forall j, k :: 0 <= j < k < |idx| ==> idx[j] < idx[k]
    requires forall j :: 0 <= j < |idx| ==> retried[j] == ResultOf(w, Some(calls[idx[j]]), w.outcome(attempt, idx[j]))
    modifies results
    ensures RunsOf(w, calls, n, attempt + 1) && LastOutcomes(w, calls, n, results[..])
    ensures forall i :: 0 <= i < |calls| && Fails(w.outcome(n[i] - 1, i)) ==> n[i] == attempt + 1
  {
    hide ResultOf;
    FailedResults(w);
    n := n0;
    for j := 0 to |idx|
      invariant |n| == |calls|
      invariant forall k :: 0 <= k < |idx| ==> retried[k] == old(retried[k])
      invariant forall i :: 0 <= i < |calls| ==>
        if i in idx[..j] then n[i] == attempt + 1 && results[i] == ResultOf(w, Some(calls[i]), w.outcome(attempt, i))
        else n[i] == n0[i] && results[i] == old(results[i])
    {
      results[idx[j]] := retried[j];
      n := n[idx[j] := attempt + 1];
      assert idx[..j + 1] == idx[..j] + [idx[j]];
    }
    assert idx[..|idx|] == idx;
    forall i | 0 <= i < |calls|
      ensures 1 <= n[i] <= attempt + 1 && results[i] == ResultOf(w, Some(calls[i]), w.outcome(n[i] - 1, i))
      ensures forall a :: 0 <= a < n[i] - 1 ==> Fails(w.outcome(a, i))
      ensures Fails(w.outcome(n[i] - 1, i)) ==> n[i] == attempt + 1
    {
      assert old(results[i]) == ResultOf(w, Some(calls[i]), w.outcome(n0[i] - 1, i));
    }
  }

  // ---------------------------------------------------------------- ExecTools

  /** One tool message per call, the i-th answering the i-th call. */
  ghost predicate AnswersAll(calls: seq<ToolCall>, msgs: seq<Message>) {
    && |msgs| == |calls|
    && forall i :: 0 <= i < |calls| ==> calls[i].id != "" && msgs[i].IsTool() && msgs[i].callId == calls[i].id
  }

  /** What the call hook leaves of a call: normalized, and rewritten unless it is rejected or kept. */
  function Prepared(w: World, i: nat, c: ToolCall): (r: ToolCall)
    ensures r.id == Normalize(w, i, c).id
  {
    var d := Normalize(w, i, c);
    match w.onCall(i, d)
    case RewriteCall(name, args) => d.(name := name, args := args)
    case _ => d
  }

  /** A call is run, or answered, as it was given, with what is empty filled in; a rewriting hook sets its
      name and arguments, and nothing else. */
  lemma PreparedSays(w: World, i: nat, c: ToolCall)
    ensures var d, r := Normalize(w, i, c), Prepared(w, i, c);
            && r.id == d.id
            && match w.onCall(i, d)
               case RewriteCall(name, args) => r.name == name && r.args == args
               case _ => r.name == d.name && r.args == d.args
  {
  }

  predicate Rejected(w: World, i: nat, c: ToolCall) { w.onCall(i, Normalize(w, i, c)).RejectCall? }

  /** The answer a rejected call gets at once; nothing yet for the others. */
  function Rejection(w: World, i: nat, c: ToolCall): Message {
    match w.onCall(i, Normalize(w, i, c))
    case RejectCall(e) => Reply(w, "tool call blocked: " + e, Prepared(w, i, c))
    case _ => Nil
  }

  /** The answer in a batch that a hook aborted. */
  function AbortedReply(w: World, i: nat, c: ToolCall): Message {
    if Rejected(w, i, c) then Rejection(w, i, c)
    else Reply(w, "tool call skipped: batch aborted by tool call hook", Prepared(w, i, c))
  }

  /** Normalizes every call in place and asks the hook about it. */
  method FireCallHooks(w: World, calls: array<ToolCall>) returns (results: array<Message>, blocked: bool)
    modifies calls
    ensures fresh(results) && results.Length == calls.Length
    ensures forall i :: 0 <= i < calls.Length ==> calls[i] == Prepared(w, i, old(calls[i]))
    ensures forall i :: 0 <= i < calls.Length ==> results[i] == Rejection(w, i, old(calls[i]))
    ensures blocked <==> exists i :: 0 <= i < calls.Length && Rejected(w, i, old(calls[i]))
  {
    hide Normalize, Prepared, Rejection, Rejected;
    results := new Message[calls.Length](i => Nil);
    blocked := false;
    for i := 0 to calls.Length
      invariant fresh(results) && results.Length == calls.Length
      invariant forall j :: i <= j < calls.Length ==> calls[j] == old(calls[j]) && results[j].Nil?
      invariant forall j :: 0 <= j < i ==> calls[j] == Prepared(w, j, old(calls[j]))
      invariant forall j :: 0 <= j < i ==> results[j] == Rejection(w, j, old(calls[j]))
      invariant blocked <==> exists j :: 0 <= j < i && Rejected(w, j, old(calls[j]))
    {
      var rejected: Option<string>;
      calls[i], rejected := FireCallHook(w, i, calls[i]);
      if rejected.Some? {
        results[i] := Reply(w, rejected.value, calls[i]);
        blocked := true;
      }
    }
  }

  /** One call: the error text if it is rejected. */
  method FireCallHook(w: World, i: nat, c0: ToolCall) returns (c: ToolCall, rejected: Option<string>)
    ensures c == Prepared(w, i, c0) && (rejected.Some? <==> Rejected(w, i, c0))
    ensures Rejection(w, i, c0) == if rejected.Some? then Reply(w, rejected.value, c) else Nil
  {
    c, rejected := Normalize(w, i, c0), None;
    match w.onCall(i, c) {
      case RejectCall(e) => rejected := Some("tool call blocked: " + e);
      case KeepCall =>
      case RewriteCall(name, args) => c := c.(name := name, args := args);
    }
  }

  /** Executes a batch with its hooks. On every path there is exactly one tool message per call,
      carrying that call's ID, and IDs given by the model are kept. Tools run, `n[i]` times each,
      exactly when there is a registry and no hook rejected a call of the batch. */
  method ExecTools(w: World, calls: array<ToolCall>) returns (msgs: seq<Message>, ghost n: seq<nat>)
    modifies calls
    ensures AnswersAll(calls[..], msgs)
    ensures forall i :: 0 <= i < calls.Length && old(calls[i]).id != "" ==> calls[i].id == old(calls[i]).id
    ensures n != [] <==> calls.Length > 0 && w.hasRegistry
                         && forall i :: 0 <= i < calls.Length ==> !Rejected(w, i, old(calls[i]))
    ensures n != [] ==> RunsOf(w, calls[..], n, MaxAttempts(w))
    ensures n != [] ==> forall i :: 0 <= i < calls.Length ==> calls[i] == Normalize(w, i, Prepared(w, i, old(calls[i])))
    ensures n != [] ==> forall i :: 0 <= i < calls.Length ==>
      n[i] > 0 && msgs[i] == AfterHook(w, i, calls[i], ResultOf(w, Some(calls[i]), w.outcome(n[i] - 1, i)).message)
    ensures n == [] && w.hasRegistry ==> forall i :: 0 <= i < calls.Length ==> msgs[i] == AbortedReply(w, i, old(calls[i]))
    ensures !w.hasRegistry ==> forall i :: 0 <= i < calls.Length ==>
      msgs[i] == Reply(w, "no tool registry configured", Normalize(w, i, old(calls[i])))
    ensures BatchIs(w, old(calls[..]), calls[..], msgs, n)
    ensures forall i :: 0 <= i < |n| ==> n[i] <= 1 + if w.retryOnTool && w.maxRetries > 0 then w.maxRetries else 0
    ensures w.retryOnTool ==> forall i :: 0 <= i < |n| && Fails(w.outcome(n[i] - 1, i)) ==>
              n[i] > w.maxRetries || w.waitAborted(n[i])
  {
    hide Prepared, Rejection, Rejected, AfterHook, ResultOf, AbortedReply, Normalize;
    msgs, n := [], [];
    if calls.Length == 0 { return; }
    if !w.hasRegistry {
      msgs := RefuseAll(w, calls);
      return;
    }
    var results, blocked := FireCallHooks(w, calls);
    if blocked {
      msgs := FillSkipped(w, old(calls[..]), calls[..], results);
      return;
    }
    var slots;
    slots, n := ExecWithRetry(w, calls);
    msgs := FireResultHooks(w, calls[..], slots, n);
  }

  /** Without a registry every call is answered with the same error. */
  method RefuseAll(w: World, calls: array<ToolCall>) returns (msgs: seq<Message>)
    modifies calls
    ensures AnswersAll(calls[..], msgs)
    ensures forall i :: 0 <= i < calls.Length ==> calls[i] == Normalize(w, i, old(calls[i]))
    ensures forall i :: 0 <= i < calls.Length ==>
      msgs[i] == Reply(w, "no tool registry configured", Normalize(w, i, old(calls[i])))
  {
    hide Normalize;
    msgs := [];
    for i := 0 to calls.Length
      invariant |msgs| == i
      invariant forall j :: i <= j < calls.Length ==> calls[j] == old(calls[j])
      invariant forall j :: 0 <= j < i ==> calls[j] == Normalize(w, j, old(calls[j]))
      invariant forall j :: 0 <= j < i ==> msgs[j] == Reply(w, "no tool registry configured", calls[j])
    {
      calls[i] := Normalize(w, i, calls[i]);
      msgs := msgs + [Reply(w, "no tool registry configured", calls[i])];
    }
  }

  /** A batch aborted by a hook still answers the calls that were not rejected. */
  method FillSkipped(w: World, ghost given: seq<ToolCall>, calls: seq<ToolCall>, results: array<Message>) returns (msgs: seq<Message>)
    requires results.Length == |calls| == |given|
    requires forall i :: 0 <= i < |calls| ==> calls[i] == Prepared(w, i, given[i]) && results[i] == Rejection(w, i, given[i])
    ensures AnswersAll(calls, msgs)
    ensures forall i :: 0 <= i < |calls| ==> msgs[i] == AbortedReply(w, i, given[i])
  {
    hide Prepared, Rejection, AbortedReply, Normalize;
    msgs := [];
    for i := 0 to |calls|
      invariant |msgs| == i
      invariant forall j :: 0 <= j < i ==> msgs[j] == AbortedReply(w, j, given[j])
    {
      AbortedIs(w, i, given[i]);
      msgs := msgs + [if results[i].Nil? then Reply(w, "tool call skipped: batch aborted by tool call hook", calls[i])
                      else results[i]];
    }
    forall i | 0 <= i < |calls| ensures calls[i].id != "" && msgs[i].IsTool() && msgs[i].callId == calls[i].id {
      AbortedIs(w, i, given[i]);
    }
  }

  lemma AbortedIs(w: World, i: nat, c: ToolCall)
    ensures AbortedReply(w, i, c) == if Rejection(w, i, c).Nil?
      then Reply(w, "tool call skipped: batch aborted by tool call hook", Prepared(w, i, c)) else Rejection(w, i, c)
    ensures Prepared(w, i, c).id != "" && AbortedReply(w, i, c).IsTool() && AbortedReply(w, i, c).callId == Prepared(w, i, c).id
  {
  }

  method FireResultHooks(w: World, calls: seq<ToolCall>, slots: array<ToolResult>, ghost n: seq<nat>) returns (msgs: seq<Message>)
    requires forall i :: 0 <= i < |calls| ==> calls[i].id != ""
    requires slots.Length == |calls| && LastOutcomes(w, calls, n, slots[..])
    ensures AnswersAll(calls, msgs)
    ensures forall i :: 0 <= i < |calls| ==>
      msgs[i] == AfterHook(w, i, calls[i], ResultOf(w, Some(calls[i]), w.outcome(n[i] - 1, i)).message)
  {
    hide AfterHook, ResultOf;
    msgs := [];
    for i := 0 to |calls|
      invariant |msgs| == i
      invariant forall j :: 0 <= j < i ==>
        msgs[j] == AfterHook(w, j, calls[j], ResultOf(w, Some(calls[j]), w.outcome(n[j] - 1, j)).message)
    {
      assert slots[..][i] == slots[i];
      var m := FireResultHook(w, i, calls[i], slots[i].message);
      msgs := msgs + [m];
    }
    forall i | 0 <= i < |calls| ensures msgs[i].IsTool() && msgs[i].callId == calls[i].id {
      HookKeepsAnswer(w, i, calls[i], w.outcome(n[i] - 1, i));
    }
  }

  method FireResultHook(w: World, i: nat, c: ToolCall, m0: Message) returns (m: Message)
    ensures m == AfterHook(w, i, c, m0)
  {
    m := m0;
    match w.onResult(i, m) {
      case RejectResult(e) => m := Reply(w, "tool result rejected: " + e, c);
      case KeepResult =>
      case RewriteResult(content) => if m.Msg? { m := m.(content := content); }
    }
  }

  lemma HookKeepsAnswer(w: World, i: nat, c: ToolCall, o: Outcome)
    ensures var m := AfterHook(w, i, c, ResultOf(w, Some(c), o).message); m.IsTool() && m.callId == c.id
  {
  }

  /** What the result hook leaves of a tool's message. */
  function AfterHook(w: World, i: nat, c: ToolCall, m: Message): Message {
    match w.onResult(i, m)
    case RejectResult(e) => Reply(w, "tool result rejected: " + e, c)
    case KeepResult => m
    case RewriteResult(content) => if m.Msg? then m.(content := content) else m
  }

  /** The message behind an executed call, spelled out: what its last execution came to, as the result
      hook leaves it. */
  lemma AnswerSays(w: World, i: nat, c: ToolCall, o: Outcome)
    requires w.hasRegistry
    ensures var text := match o
              case NotFound => w.payload("tool not found: " + c.name, map[])
              case TimedOut => w.payload("tool call timed out", map["code" := "TOOL_TIMEOUT", "tool" := c.name])
              case Errored(e) => w.payload(e, map[])
              case Panicked(p) => w.payload("tool panicked: " + p, map[])
              case Succeeded(t) => t;
            AfterHook(w, i, c, ResultOf(w, Some(c), o).message) ==
              match w.onResult(i, ToolMessage(text, c.id, c.name))
              case RejectResult(e) => ToolMessage(w.payload("tool result rejected: " + e, map[]), c.id, c.name)
              case KeepResult => ToolMessage(text, c.id, c.name)
              case RewriteResult(content) => ToolMessage(content, c.id, c.name)
  {
  }

  /** The answers of a batch that a hook aborted, spelled out. */
  lemma AbortedSays(w: World, i: nat, c: ToolCall)
    ensures var d := Prepared(w, i, c);
            AbortedReply(w, i, c) ==
              match w.onCall(i, Normalize(w, i, c))
              case RejectCall(e) => ToolMessage(w.payload("tool call blocked: " + e, map[]), d.id, d.name)
              case _ => ToolMessage(w.payload("tool call skipped: batch aborted by tool call hook", map[]), d.id, d.name)
  {
  }

  /** What a batch comes to: the calls as they ended up, how often each was executed, and the messages.
      Without a registry, or if a hook rejects a call, nothing is executed. */
  ghost predicate BatchIs(w: World, given: seq<ToolCall>, calls: seq<ToolCall>, msgs: seq<Message>, n: seq<nat>) {
    && |calls| == |given| && AnswersAll(calls, msgs)
    && if !w.hasRegistry then
         n == [] && forall i :: 0 <= i < |given| ==>
           && calls[i] == Normalize(w, i, given[i])
           && msgs[i] == ToolMessage(w.payload("no tool registry configured", map[]), calls[i].id, calls[i].name)
       else if exists i :: 0 <= i < |given| && Rejected(w, i, given[i]) then
         n == [] && forall i :: 0 <= i < |given| ==> calls[i] == Prepared(w, i, given[i]) && msgs[i] == AbortedReply(w, i, given[i])
       else
         && RunsOf(w, calls, n, MaxAttempts(w))
         && (w.retryOnTool ==> forall i :: 0 <= i < |n| && Fails(w.outcome(n[i] - 1, i)) ==>
               n[i] > w.maxRetries || w.waitAborted(n[i]))
         && forall i :: 0 <= i < |given| ==>
              && calls[i] == Normalize(w, i, Prepared(w, i, given[i]))
              && (n[i] > 0 && Fails(w.outcome(n[i] - 1, i)) ==> n[i] == MaxAttempts(w) || w.waitAborted(n[i]))
              && n[i] > 0 && msgs[i] == AfterHook(w, i, calls[i], ResultOf(w, Some(calls[i]), w.outcome(n[i] - 1, i)).message)
  }

  ghost predicate BatchAnswered(w: World, given: seq<ToolCall>, calls: seq<ToolCall>, msgs: seq<Message>) {
    exists n :: BatchIs(w, given, calls, msgs, n)
  }

  /** A batch whose tools all succeed at once, with hooks that change nothing, is answered by what the
      tools return. */
  lemma PlainBatch(w: World, given: seq<ToolCall>, calls: seq<ToolCall>, msgs: seq<Message>, n: seq<nat>, i: nat, text: string)
    requires BatchIs(w, given, calls, msgs, n) && i < |given| && w.hasRegistry
    requires (forall j: nat, c :: w.onCall(j, c).KeepCall?) && forall j: nat, m :: w.onResult(j, m).KeepResult?
    requires w.outcome(0, i) == Succeeded(text)
    ensures n[i] == 1 && msgs[i] == ToolMessage(text, calls[i].id, calls[i].name)
    ensures calls[i].name == given[i].name && (given[i].args != "" ==> calls[i].args == given[i].args)
  {
    hide AfterHook, ResultOf, Normalize, AnswersAll;
    assert forall j :: 0 <= j < |given| ==> !Rejected(w, j, given[j]);
    assert !(n[i] > 1);
    AnswerSays(w, i, calls[i], w.outcome(0, i));
    NormalizeSays(w, i, given[i]);
    NormalizeSays(w, i, Prepared(w, i, given[i]));
  }

  /** An answered batch completes the block of its caller. */
  lemma AnsweredIsComplete(calls: seq<ToolCall>, msgs: seq<Message>)
    requires AnswersAll(calls, msgs)
    ensures Complete(calls, msgs) && forall m :: m in msgs ==> m.IsTool()
  {
    forall c | c in calls ensures c.id != "" && HasAnswer(msgs, c.id) {
      var i :| 0 <= i < |calls| && calls[i] == c;
      assert msgs[i] in msgs;
    }
  }
}

/** The ReAct loop (engine/steploop.go): model call, tool execution, repeat, with the guard as step
    hook. The model, the tools and the other hooks are arbitrary. */
module StepLoop {
  import opened Options
  import opened Messages
  import opened Guard
  import opened ToolExec

  /** The model's answer to a history: a message with whatever role the provider gives it, nothing, or an error. */
  datatype ModelReply = ModelError | EmptyReply | Answer(role: Role, content: string, calls: seq<ToolCall>, usage: nat)

  datatype HookVerdict = Continue | Abort | HookError

  /** Everything the loop consults, step by step. */
  datatype Surroundings = Surroundings(
    cancelled: nat -> bool,
    guard: nat -> Config,
    startHook: nat -> HookVerdict,
    model: (nat, seq<Message>) -> ModelReply,
    tools: nat -> World,
    endHook: nat -> HookVerdict)

  datatype Reason = Finished | Canceled | Error | MaxSteps

  datatype RunResult = RunResult(content: string, messages: seq<Message>, usage: nat, reason: Reason)

  /** The text of the last assistant message that has one. */
  method LastContent(msgs: seq<Message>) returns (text: string)
    ensures IsContentOf(msgs, text)
  {
    var i := |msgs|;
    while i > 0
      invariant 0 <= i <= |msgs|
      invariant forall j :: i <= j < |msgs| && msgs[j].Msg? && msgs[j].role == Assistant ==> msgs[j].content == ""
    {
      i := i - 1;
      var m := msgs[i];
      if m.Msg? && m.role == Assistant && m.content != "" {
        assert m in msgs && SaysLast(msgs, i, m.content);
        return m.content;
      }
    }
    return "";
  }

  ghost predicate SaysLast(msgs: seq<Message>, i: nat, text: string)
    requires i < |msgs|
  {
    && msgs[i].Msg? && msgs[i].role == Assistant && msgs[i].content == text
    && forall j :: i < j < |msgs| && msgs[j].Msg? && msgs[j].role == Assistant ==> msgs[j].content == ""
  }

  /** The text a result reports: that of the last assistant message that has one, if any. */
  ghost predicate IsContentOf(msgs: seq<Message>, text: string) {
    if text == "" then forall m :: m in msgs && m.Msg? && m.role == Assistant ==> m.content == ""
    else exists i :: 0 <= i < |msgs| && SaysLast(msgs, i, text)
  }

  /** `next` is `sent` with the model's answer behind it, and behind that what step `k` made of the calls
      it asks for: they stand in the answer as they were executed, or would have been. */
  ghost predicate Extends(env: Surroundings, k: nat, sent: seq<Message>, a: ModelReply, next: seq<Message>) {
    && a.Answer? && |next| == |sent| + 1 + |a.calls| && next[..|sent|] == sent
    && next[|sent|].Msg? && next[|sent|].role == a.role && next[|sent|].content == a.content
    && BatchAnswered(env.tools(k), a.calls, next[|sent|].calls, next[|sent| + 1..])
  }

  /** One step: guard, model, tools. `sent` is what the model saw. */
  method Step(env: Surroundings, step: nat, msgs: seq<Message>)
    returns (next: Option<seq<Message>>, hasCalls: bool, usage: nat, sent: seq<Message>)
    requires Monotone(env.guard(step).est)
    ensures Guarded(env.guard(step), msgs, sent)
    ensures next.Some? <==> env.model(step, sent).Answer?
    ensures next.Some? ==> Extends(env, step, sent, env.model(step, sent), next.value)
    ensures next.Some? ==> usage == env.model(step, sent).usage && hasCalls == (env.model(step, sent).calls != [])
    ensures Paired(msgs) ==> Paired(sent)
    ensures Paired(msgs) && next.Some? ==> (Paired(next.value) <==> AnswerSuits(env, step, sent))
  {
    hide Guarded, Paired, Suits, Extends;
    next, hasCalls, usage := None, false, 0;
    var history := OnStepStart(env.guard(step), msgs);
    sent := history;
    var reply := env.model(step, history);
    if reply.Answer? {
      usage := reply.usage;
      hasCalls := |reply.calls| > 0;
      var longer := Respond(env, step, history, reply);
      next := Some(longer);
    }
  }

  /** The history with the reply behind it, and with the results of the calls it makes. */
  method Respond(env: Surroundings, step: nat, history: seq<Message>, reply: ModelReply) returns (longer: seq<Message>)
    requires reply.Answer?
    ensures Extends(env, step, history, reply, longer)
    ensures Paired(history) ==> (Paired(longer) <==> Suits(history, reply.role, reply.calls))
  {
    hide Paired, Suits, BatchIs, BatchAnswered, AnswersAll;
    var calls := reply.calls;
    var slots := new ToolCall[|calls|](i requires 0 <= i < |calls| => calls[i]);
    assert slots[..] == calls;
    var results: seq<Message> := [];
    EmptyBatch(env.tools(step));
    if |calls| > 0 { results := ExecPhase(env, step, slots); }
    BatchFits(env.tools(step), calls, slots[..], results);
    // The reply shares its calls with the batch: normalized IDs are visible in the history.
    var m := Msg(reply.role, reply.content, slots[..], "", "");
    longer := history + ([m] + results);
    assert longer[|history| + 1..] == results;
    if Paired(history) {
      ReplyPairedIff(history, m, results);
      SuitsByLength(history, reply.role, calls, slots[..]);
    }
  }

  lemma BatchFits(w: World, given: seq<ToolCall>, calls: seq<ToolCall>, msgs: seq<Message>)
    requires BatchAnswered(w, given, calls, msgs)
    ensures AnswersAll(calls, msgs) && |msgs| == |calls| == |given|
  {
    hide RunsOf, AfterHook, ResultOf, Prepared, Normalize, AbortedReply, Rejected;
  }

  lemma SuitsByLength(history: seq<Message>, role: Role, a: seq<ToolCall>, b: seq<ToolCall>)
    requires |a| == |b|
    ensures Suits(history, role, a) <==> Suits(history, role, b)
  {
  }

  /** A reply whose calls are all answered keeps a history well paired. */
  lemma ReplyPaired(history: seq<Message>, reply: Message, results: seq<Message>)
    requires Paired(history) && reply.Msg? && reply.role == Assistant && AnswersAll(reply.calls, results)
    ensures Paired(history + ([reply] + results))
  {
    if reply.calls != [] {
      AnsweredIsComplete(reply.calls, results);
      BlockPaired(reply, results, []);
      assert [reply] + results + [] == [reply] + results;
    } else {
      SinglePaired(reply);
      assert [reply] + results == [reply];
    }
    PairedAppend(history, [reply] + results);
  }

  /** A caller with nothing but tool messages behind it ends the history. */
  ghost predicate EndsInBlock(ms: seq<Message>) {
    exists k :: 0 <= k < |ms| && ms[k].IsCaller() && OnlyToolsBetween(ms, k, |ms|)
  }

  /** A reply that can stand behind the history, its calls being answered. */
  ghost predicate Suits(history: seq<Message>, role: Role, calls: seq<ToolCall>) {
    role == Assistant || if role == Tool then EndsInBlock(history) else calls == []
  }

  ghost predicate AnswerSuits(env: Surroundings, k: nat, sent: seq<Message>) {
    var a := env.model(k, sent);
    a.Answer? ==> Suits(sent, a.role, a.calls)
  }

  /** A reply whose calls are all answered keeps a history well paired if and only if it has the
      assistant role, or no calls, or is a tool message in a caller's block. */
  lemma ReplyPairedIff(history: seq<Message>, reply: Message, results: seq<Message>)
    requires Paired(history) && reply.Msg? && AnswersAll(reply.calls, results)
    ensures Paired(history + ([reply] + results)) <==> Suits(history, reply.role, reply.calls)
  {
    hide Paired, WellPaired, EndsInBlock;
    var ms := history + ([reply] + results);
    PairedIffWellPaired(history);
    PairedIffWellPaired(ms);
    if reply.role == Assistant {
      ReplyPaired(history, reply, results);
    } else if reply.role == Tool {
      if EndsInBlock(history) { JoinsBlock(history, [reply] + results); }
      if WellPaired(ms) { ToolNeedsBlock(history, reply, results); }
    } else if reply.calls == [] {
      SinglePaired(reply);
      assert [reply] + results == [reply];
      PairedAppend(history, [reply]);
    } else {
      StrayResults(history, reply, results);
    }
  }

  /** Tool messages may follow an open block. */
  lemma JoinsBlock(history: seq<Message>, tools: seq<Message>)
    requires WellPaired(history) && EndsInBlock(history) && forall m :: m in tools ==> m.IsTool()
    ensures WellPaired(history + tools)
  {
    var ms := history + tools;
    var c :| 0 <= c < |history| && history[c].IsCaller() && OnlyToolsBetween(history, c, |history|);
    forall i | 0 <= i < |ms|
      ensures ms[i].Msg? && (ms[i].IsCaller() ==> AllAnswered(ms, i)) && (ms[i].IsTool() ==> BehindCaller(ms, i))
    {
      if i < |history| {
        assert ms[i] == history[i];
        InLongerHistory(history, tools, i);
      } else {
        assert ms[i] in tools && ms[c] == history[c];
        assert forall x :: c < x < i ==> ms[x] == if x < |history| then history[x] else tools[x - |history|];
        assert OnlyToolsBetween(ms, c, i);
      }
    }
  }

  lemma InLongerHistory(a: seq<Message>, b: seq<Message>, i: nat)
    requires i < |a| && a[i].Msg?
    ensures AllAnswered(a, i) ==> AllAnswered(a + b, i)
    ensures BehindCaller(a, i) ==> BehindCaller(a + b, i)
  {
    var ms := a + b;
    assert forall x :: 0 <= x < |a| ==> ms[x] == a[x];
    if AllAnswered(a, i) {
      forall c | c in ms[i].calls ensures c.id != "" && Answered(ms, i, c.id) {
        var j :| AnsweredAt(a, i, j, c.id);
        assert AnsweredAt(ms, i, j, c.id);
      }
    }
    if BehindCaller(a, i) {
      var k :| 0 <= k < i < |a| && a[k].IsCaller() && OnlyToolsBetween(a, k, i);
      assert OnlyToolsBetween(ms, k, i);
    }
  }

  lemma ToolNeedsBlock(history: seq<Message>, reply: Message, results: seq<Message>)
    requires reply.IsTool() && WellPaired(history + ([reply] + results))
    ensures EndsInBlock(history)
  {
    var ms, h := history + ([reply] + results), |history|;
    assert ms[h] == reply && BehindCaller(ms, h);
    var k :| 0 <= k < h < |ms| && ms[k].IsCaller() && OnlyToolsBetween(ms, k, h);
    assert forall x :: 0 <= x < h ==> history[x] == ms[x];
    assert OnlyToolsBetween(history, k, h);
  }

  /** Behind a reply that is neither a caller nor a tool message no tool message may stand. */
  lemma StrayResults(history: seq<Message>, reply: Message, results: seq<Message>)
    requires reply.Msg? && reply.role != Assistant && reply.role != Tool && reply.calls != [] && AnswersAll(reply.calls, results)
    ensures !WellPaired(history + ([reply] + results))
  {
    var ms, h := history + ([reply] + results), |history|;
    assert ms[h] == reply && ms[h + 1] == results[0];
    forall k | 0 <= k < h + 1 ensures !(ms[k].IsCaller() && OnlyToolsBetween(ms, k, h + 1)) {
      if k < h { assert !ms[h].IsTool(); }
    }
    assert ms[h + 1].IsTool() && !BehindCaller(ms, h + 1);
  }

  /** Runs the calls of a reply; the slots are shared with it. */
  method ExecPhase(env: Surroundings, step: nat, slots: array<ToolCall>) returns (results: seq<Message>)
    modifies slots
    ensures BatchAnswered(env.tools(step), old(slots[..]), slots[..], results)
  {
    hide BatchIs;
    ghost var n;
    results, n := ExecTools(env.tools(step), slots);
  }

  lemma EmptyBatch(w: World)
    ensures BatchAnswered(w, [], [], [])
  {
    assert BatchIs(w, [], [], [], []);
  }

  /** Step `k` started from `msgs` and sent the model `sent`. */
  ghost predicate Sends(env: Surroundings, k: nat, msgs: seq<Message>, sent: seq<Message>) {
    !env.cancelled(k) && env.startHook(k) == Continue && Guarded(env.guard(k), msgs, sent)
  }

  /** Step `k` called tools and the run went on. */
  ghost predicate GoesOn(env: Surroundings, k: nat, sent: seq<Message>) {
    env.model(k, sent).Answer? && env.model(k, sent).calls != [] && env.endHook(k) == Continue
  }

  /** The histories of a run: `trail[k]` is what step `k` starts from and `sent[k]` what the guard
      makes of it for the model, whose answer leads to `trail[k + 1]`. */
  ghost predicate IsTrail(env: Surroundings, input: seq<Message>, sent: seq<seq<Message>>, trail: seq<seq<Message>>) {
    && trail != [] && trail[0] == input && |sent| <= |trail| <= |sent| + 1
    && (forall k :: 0 <= k < |sent| ==> Sends(env, k, trail[k], sent[k]))
    && (forall k :: 0 <= k < |trail| - 1 ==> Extends(env, k, sent[k], env.model(k, sent[k]), trail[k + 1]))
    && (forall k :: 0 <= k < |sent| - 1 ==> GoesOn(env, k, sent[k]))
  }

  /** Between two steps: the trail is one longer than what was sent, and every step went on. */
  ghost predicate Underway(env: Surroundings, input: seq<Message>, sent: seq<seq<Message>>, trail: seq<seq<Message>>) {
    IsTrail(env, input, sent, trail) && BeforeStep(env, sent, trail)
  }

  /** Why a run with these histories ended as it did; `|sent|` steps reached the model. */
  ghost predicate EndedFor(env: Surroundings, maxSteps: nat, sent: seq<seq<Message>>, trail: seq<seq<Message>>, reason: Reason) {
    var k := |sent|;
    match reason
    case MaxSteps => BeforeStep(env, sent, trail) && k == maxSteps
    case Canceled => BeforeStep(env, sent, trail) && k < maxSteps && env.cancelled(k)
    case Error =>
      || (BeforeStep(env, sent, trail) && k < maxSteps && !env.cancelled(k) && env.startHook(k) == HookError)
      || (|trail| == k > 0 && (!env.model(k - 1, sent[k - 1]).Answer? || env.endHook(k - 1) == HookError))
    case Finished =>
      || (BeforeStep(env, sent, trail) && k < maxSteps && !env.cancelled(k) && env.startHook(k) == Abort)
      || (k > 0 && AnsweredLast(env, k - 1, sent[k - 1]) &&
          if env.model(k - 1, sent[k - 1]).calls == [] then |trail| == k + 1
          else env.endHook(k - 1) == Abort && |trail| == k)
  }

  /** The run stands between two steps: every step so far called tools and went on. */
  ghost predicate BeforeStep(env: Surroundings, sent: seq<seq<Message>>, trail: seq<seq<Message>>) {
    |trail| == |sent| + 1 && forall j :: 0 <= j < |sent| ==> GoesOn(env, j, sent[j])
  }

  ghost predicate AnsweredLast(env: Surroundings, k: nat, sent: seq<Message>) {
    env.model(k, sent).Answer? && env.endHook(k) != HookError
  }

  lemma TrailSends(env: Surroundings, input: seq<Message>, sent: seq<seq<Message>>, trail: seq<seq<Message>>, seen: seq<Message>)
    requires Underway(env, input, sent, trail) && Sends(env, |sent|, trail[|sent|], seen)
    ensures IsTrail(env, input, sent + [seen], trail)
  {
    hide Sends, Extends, GoesOn;
  }

  lemma TrailExtends(env: Surroundings, input: seq<Message>, sent: seq<seq<Message>>, trail: seq<seq<Message>>, next: seq<Message>)
    requires IsTrail(env, input, sent, trail) && |trail| == |sent| > 0
    requires Extends(env, |sent| - 1, sent[|sent| - 1], env.model(|sent| - 1, sent[|sent| - 1]), next)
    ensures IsTrail(env, input, sent, trail + [next])
    ensures GoesOn(env, |sent| - 1, sent[|sent| - 1]) ==> Underway(env, input, sent, trail + [next])
  {
    hide Sends, Extends, GoesOn;
  }

  ghost predicate Used(env: Surroundings, k: nat, sent: seq<Message>, usage: nat) {
    env.model(k, sent).Answer? && usage == env.model(k, sent).usage
  }

  /** The usages are those of the model's answers, in order; only the last reply may be no answer. */
  ghost predicate UsedBy(env: Surroundings, sent: seq<seq<Message>>, usages: seq<nat>) {
    && |usages| <= |sent| <= |usages| + 1
    && (forall k :: 0 <= k < |usages| ==> Used(env, k, sent[k], usages[k]))
    && (|usages| < |sent| ==> !env.model(|usages|, sent[|usages|]).Answer?)
  }

  lemma UsedOnce(env: Surroundings, sent: seq<seq<Message>>, usages: seq<nat>, seen: seq<Message>, usage: nat)
    requires UsedBy(env, sent, usages) && |usages| == |sent|
    ensures !env.model(|sent|, seen).Answer? ==> UsedBy(env, sent + [seen], usages)
    ensures Used(env, |sent|, seen, usage) ==> UsedBy(env, sent + [seen], usages + [usage])
  {
    hide Used;
  }

  lemma SumSnoc(us: seq<nat>, u: nat)
    ensures Sum(us + [u]) == Sum(us) + u
  {
    assert (us + [u])[..|us|] == us;
  }

  /** Every answer suits the history it was given to. */
  ghost predicate AllSuit(env: Surroundings, sent: seq<seq<Message>>) {
    forall k :: 0 <= k < |sent| ==> AnswerSuits(env, k, sent[k])
  }

  lemma SuitSnoc(env: Surroundings, sent: seq<seq<Message>>, seen: seq<Message>)
    ensures AllSuit(env, sent + [seen]) <==> AllSuit(env, sent) && AnswerSuits(env, |sent|, seen)
  {
    hide AnswerSuits;
    var all := sent + [seen];
    assert forall k :: 0 <= k < |sent| ==> all[k] == sent[k];
    if AllSuit(env, all) {
      assert all[|sent|] == seen;
      forall k | 0 <= k < |sent| ensures AnswerSuits(env, k, sent[k]) { assert all[k] == sent[k]; }
    }
  }

  /** Total usage of the model calls made so far. */
  function Sum(us: seq<nat>): nat { if us == [] then 0 else Sum(us[..|us| - 1]) + us[|us| - 1] }

  /** The loop. Starting from a well-paired history, and if the answers suit, as assistant messages always
      do, every history the model is ever sent and the history the run returns, on every way out, are well
      paired. The model is called at most `maxSteps` times and the reported usage is the sum over its
      answers. Each way out has its cause. */
  method Run(env: Surroundings, input: seq<Message>, maxSteps: nat)
    returns (r: RunResult, ghost sent: seq<seq<Message>>, ghost trail: seq<seq<Message>>, ghost usages: seq<nat>)
    requires forall s :: Monotone(env.guard(s).est)
    ensures WellPaired(input) && AllSuit(env, sent) ==> WellPaired(r.messages) && forall h :: h in sent ==> WellPaired(h)
    ensures input == [] ==> r == RunResult("", [], 0, Error) && sent == []
    ensures input != [] ==> IsTrail(env, input, sent, trail) && r.messages == trail[|trail| - 1]
    ensures |sent| <= maxSteps && (input != [] ==> EndedFor(env, maxSteps, sent, trail, r.reason))
    ensures r.usage == Sum(usages) && UsedBy(env, sent, usages)
    ensures if r.reason == Finished || r.reason == MaxSteps then IsContentOf(r.messages, r.content) else r.content == ""
  {
    hide Guarded, Extends, IsContentOf, Monotone, Underway, UsedBy, Sum, Paired, WellPaired, AllSuit, AnswerSuits;
    sent, trail, usages := [], [input], [];
    var usage := 0;
    if |input| == 0 {
      NoMessages();
      r := RunResult("", [], 0, Error);
      return;
    }
    var msgs := input;
    PairedIffWellPaired(input);
    NothingSent(env, input);
    for step := 0 to maxSteps
      invariant WellPaired(input) && AllSuit(env, sent) ==> Paired(msgs) && forall h :: h in sent ==> WellPaired(h)
      invariant |sent| == step && |usages| == |sent| && usage == Sum(usages) && UsedBy(env, sent, usages)
      invariant |trail| == step + 1 && msgs == trail[step] && Underway(env, input, sent, trail)
    {
      PairedIffWellPaired(msgs);
      UnderwayIsTrail(env, input, sent, trail);
      hide IsTrail, BeforeStep;
      if env.cancelled(step) {
        r := RunResult("", msgs, usage, Canceled);
        return;
      }
      match env.startHook(step) {
        case HookError =>
          r := RunResult("", msgs, usage, Error);
          return;
        case Abort =>
          var text := LastContent(msgs);
          r := RunResult(text, msgs, usage, Finished);
          return;
        case Continue =>
      }
      var seen;
      var next, hasCalls, u;
      next, hasCalls, u, seen := Step(env, step, msgs);
      PairedIffWellPaired(seen);
      TrailSends(env, input, sent, trail, seen);
      UsedOnce(env, sent, usages, seen, u);
      SumSnoc(usages, u);
      SuitSnoc(env, sent, seen);
      sent := sent + [seen];
      if next.None? {
        r := RunResult("", msgs, usage, Error);
        return;
      }
      usage, usages := usage + u, usages + [u];
      PairedIffWellPaired(next.value);
      if env.endHook(step) == HookError {
        r := RunResult("", msgs, usage, Error);
        return;
      }
      TrailExtends(env, input, sent, trail, next.value);
      if !hasCalls {
        trail := trail + [next.value];
        var text := LastContent(next.value);
        r := RunResult(text, next.value, usage, Finished);
        return;
      }
      if env.endHook(step) == Abort {
        var text := LastContent(msgs);
        r := RunResult(text, msgs, usage, Finished);
        return;
      }
      msgs, trail := next.value, trail + [next.value];
    }
    PairedIffWellPaired(msgs);
    UnderwayIsTrail(env, input, sent, trail);
    var text := LastContent(msgs);
    r := RunResult(text, msgs, usage, MaxSteps);
  }

  lemma NoMessages()
    ensures WellPaired([]) && Sum([]) == 0 && forall env :: UsedBy(env, [], [])
  {
  }

  lemma NothingSent(env: Surroundings, input: seq<Message>)
    ensures Underway(env, input, [], [input]) && UsedBy(env, [], []) && Sum([]) == 0
  {
  }

  lemma UnderwayIsTrail(env: Surroundings, input: seq<Message>, sent: seq<seq<Message>>, trail: seq<seq<Message>>)
    requires Underway(env, input, sent, trail)
    ensures IsTrail(env, input, sent, trail) && BeforeStep(env, sent, trail)
  {
  }
}

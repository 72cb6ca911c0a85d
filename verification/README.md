# A verified model of gocel's concurrency, session, repair and agent-loop cores

This Dafny project models the parts of gocel whose correctness rests on state machines, scheduling
and text transformation, and proves what those parts promise. Code that works in place is modelled by
classes and methods with loops; each method is proved against a specification function or predicate,
and the lemmas are about those specifications. `dafny verify dfyconfig.toml` checks everything.

* **DAG engine** (`Graphs`, `GraphStates`, `Verdicts`, `SchedulerState`, `Routing`, `RunSpec`, `Scheduler`,
  with `Sequences`).
  Kahn's algorithm succeeds exactly on acyclic graphs. A run is the scheduler's event loop with an
  arbitrary running node reporting next. `Verdicts` defines the outcome of every node from the graph,
  the input and the node functions alone; the three counters, the mutually recursive
  `tryStart`/`skip` cascade and the loop are proved to reach exactly those verdicts in every order.
  `RunSpec` says without them what a run computes: which data each node starts on and leaves, which way
  conditions route, and which nodes are skipped or held back.
* **Session log** (`SessionLog`): append-only records, the surface maintained by appends and
  replacements, restoring, and what each live node stands for.
* **JSON repair** (`JsonGrammar`, `JsonRepair`, `JsonIdentity`, `JsonDefects`, `JsonExtract`): the repair scanner
  over runes, with the grammar of RFC 8259 (sections 2 to 7) as concrete syntax trees in place of the
  decoder. Repair is the identity on valid texts and turns texts with the defects it is made for into the
  strict text they stand for; its string rules and those of the extraction
  scanner stay in lockstep; a bracketed value embedded in prose is found.
* **Tool-call pairing** (`Messages`, `Guard`, `SummaryText`, `ToolExec`, `StepLoop`): the rule that every assistant
  message with calls is directly followed by tool messages answering all of them, and that no tool
  message stands elsewhere, through trimming, batch execution with retries and hooks, and the whole
  loop. The model, the tools, the hooks, token estimation and the summarizer are arbitrary.
* **Smaller cores**: the FIFO semaphore with its cancel race (`Slots`), weighted and round-robin
  routing (`Router`), the layered registry and its change feed (`Registry`), the event hub (`Hub`),
  the bounded job output (`TailStore`, with `Tails`), memoised glob matching (`Glob`).

Where the code and its comments disagree, the model follows the code, and lemmas say exactly when the
comment holds:

* graph/graph.go:603-607 says that, besides conditions, interrupt passthrough nodes with labelled
  out-edges route by label. But `newScheduler` (517-526) charges the in-edges of such a node's
  targets to `remaining`, while `complete` (617-643) decrements `condPending`, so a target of such a node never becomes ready and the
  run ends without completing or skipping it (`Routing.StrandedExample`, `Routing.TargetStrands`).
  Every error-free run settles every node if and only if no pick of branches reaches such a node
  without reaching a condition that lacks the picked branch; if every condition has an out-edge, that
  is: if and only if only condition nodes have labelled out-edges (`Routing.AlwaysSettlesIff`).
* graph/state.go:324-329 says that a rollback reverts to an earlier version. Rebuilding skips recorded
  deletions, so it does if and only if no key's last change up to that version wrote nil or deleted a
  value that was not nil (`GraphStates.RollbackRestoresIff`); setting a key and deleting it is the
  shortest history on which it does not (`GraphStates.RollbackExample`).
* module/guard/guard.go:384-388 reserves room for the summary, but not for the prompt that carries it,
  so a compacted history can stay over the budget (`Guard.SummaryOverBudgetExample`). It fits whichever
  of its possible summaries the summarizer returns if and only if the heaviest prompt they can give and
  the repaired tail fit together (`Guard.SummaryAlwaysFitsIff`); for summaries up to a length limit that is
  read off the prompt, the tail and the limit (`Guard.LimitedSummariesFitIff`). A prompt within the
  reserve, less the rounding, fits (`Guard.PromptWithinReserveFits`).
* module/guard/guard.go:417-421 and 437-440 promise that a new summary replaces the old one. It does, and
  leaves the rest of the prompt alone, if and only if the prompt, which is stripped before the first
  summary joins it, has no tag of its own left and the old summary leaves nothing when its block is
  stripped alone (`SummaryText.ReplacedIff`); over any number
  of compactions, if and only if that holds of all but the latest summary
  (`SummaryText.LatestSummaryOnly`). A summary that does not quote the closing tag leaves nothing
  (`SummaryText.ResidueReadOff`); `CLOSE + "x"` is one whose text stays (`SummaryText.StaleExample`), and
  some that quote the closing tag are replaced all the same (`SummaryText.HarmlessExample`).
* The loop of module/guard/guard.go:441-453 does not end on a text whose first closing tag stands before
  the first opening one (`SummaryText.TrapExample`); it ends if and only if it never meets such a text
  (`SummaryText.EndsIff`). A run of compactions ends if and only if the prompt and all summaries but the
  latest can be stripped again and all but the latest two leave no closing tag
  (`SummaryText.RunEndsIff`); a summary that quotes the closing tag only makes the second compaction
  after it hang (`SummaryText.QuotedCloseHangs`).
* core/registry/registry.go:436-443 lets a consumer seed from a snapshot and apply the feed. That
  gives the right names in every run, but not the right values: removing an entry that hides an outer
  one with another value is not reported (`Registry.StaleValueExample`). The values agree throughout
  a run if and only if no operation does that (`Registry.ValuesAgreeIff`). A nearer registration of a
  name that is already visible is reported as an addition, although the comment speaks of visibility
  flips only (`Registry.FeedSays`).
* jsonx/jsonx.go:314 says that raw control runes inside strings are escaped. Between typographic or single
  quotes only newline, carriage return and tab are (`JsonDefects.RepairMends` asks for these,
  `JsonDefects.ControlStays` shows the others).
* modelrouter/modelrouter.go:346-347 promises a smooth distribution. Windows that contain a wrap of
  the 64-bit counter are exact if and only if there is one route or the total weight divides the
  counter's range (`Router.WrapHarmlessIff`).

## Model

| member | source | states |
|---|---|---|
| `Graphs.Graph.AddNode` | graph/graph.go:91-109 | a node id is accepted once; a second declaration is refused and changes nothing |
| `Graphs.Graph.AddLabeledEdge` | graph/graph.go:233-256 | both end points must be declared; the same edge added twice is kept once; the graph stays well formed |
| `Graphs.Graph.RebuildIndexes` | graph/graph.go:301-313 | afterwards both edge indexes list exactly the edges out of and into each node, in insertion order |
| `Graphs.InEdgesInOrder` | graph/graph.go:301-313 | the edges into a node are all of the graph's, in insertion order |
| `Graphs.OutEdgesInOrder` | graph/graph.go:301-313 | the same for the edges out of a node |
| `Graphs.Graph.TopoSort` | graph/graph.go:317-358 | succeeds exactly on acyclic graphs; then every node occurs once and every edge points forward; otherwise the reported nodes are the largest set in which everyone has a predecessor, and they contain a cycle |
| `Graphs.TopologicalIsAcyclic` | graph/graph.go:317-358 | a topological order rules out every closed walk |
| `Graphs.WalkBack` | graph/graph.go:347-357 | walking backwards inside the unprocessed nodes must repeat one, which gives the cycle (pigeonhole) |
| `Graphs.KahnPop` | graph/graph.go:332-335 | the node taken off the queue has all its sources already in the order |
| `Graphs.KahnStep` | graph/graph.go:337-342 | walking one edge keeps: counters count unresolved in-edges, and nodes at zero are exactly those out or queued |
| `Graphs.NotInOrder` | graph/graph.go:332-343 | no node of the order belongs to a set in which everyone has a predecessor |
| `Graphs.Graph.Compile` | graph/graph.go:264-298 | compiles exactly the non-empty acyclic graphs and returns the graph with a topological order |
| `GraphStates.GraphState.SetWithSource` | graph/state.go:159-181 | writes one key, nil included, and records old value, new value and source; the history keeps accounting for every earlier state |
| `GraphStates.GraphState.Delete` | graph/state.go:193-218 | removes a key that is there and records the deletion; a missing key leaves no trace |
| `GraphStates.GraphState.Fork` | graph/state.go:243-258 | a new object with equal data and history |
| `GraphStates.GraphState.MergeFrom` | graph/state.go:268-296 | first write wins: the data become the left-biased union, and the history only grows |
| `GraphStates.GraphState.Rollback` | graph/state.go:330-358 | keeps the given number of changes and rebuilds from them, or refuses; the data are then those of that version if and only if no key's last change was a nil write or the deletion of a value |
| `GraphStates.RebuildAt` | graph/state.go:338-353 | key by key: rebuilt as it was exactly when its last change is not of that kind |
| `GraphStates.RollbackRestoresIff` | graph/state.go:324-358 | the same for the whole state, on every history with writes, nil writes and deletions |
| `GraphStates.RollbackExample` | graph/state.go:338-353 | a key that was set and deleted comes back when rolling back to the version after the deletion |
| `GraphStates.CollectPredecessorState` | graph/graph.go:690-716 | the parent state is the join of the completed predecessors: the single predecessor's own object, or a fresh merge; no existing state's data changes |
| `GraphStates.JoinFirstWins` | graph/graph.go:690-716 | a key is in the join exactly when some predecessor has it, with the value of the first such predecessor in in-edge order |
| `Verdicts.VerdictUnique` | graph/graph.go:436-478 | the local rules of start, skip and failure have one solution on a DAG |
| `Verdicts.VerdictsSolve` | graph/graph.go:436-478 | and the verdicts are that solution |
| `Verdicts.OrderDoesNotMatter` | graph/graph.go:532-542 | the verdict of a node does not depend on which topological order was compiled |
| `Verdicts.JoinFrame` | graph/graph.go:690-716 | what a node inherits depends only on its own predecessors' data |
| `SchedulerState.CountersDecide` | graph/graph.go:551-558 | the counter tests of `tryStart` decide exactly that all in-edges are walked, and that all come from conditions of which none was selected |
| `SchedulerState.WalkKeepsInv` | graph/graph.go:623-643 | decrementing the counter of one out-edge keeps counters, edge accounts and node statuses consistent in the middle of the recursion |
| `SchedulerState.SkipKeepsInv` | graph/graph.go:589-589 | marking an unreached ready node skipped keeps the invariant |
| `SchedulerState.LaunchKeepsInv` | graph/graph.go:559-562 | starting a ready reached node on its predecessors' join keeps the invariant |
| `SchedulerState.FinishKeepsInv` | graph/graph.go:436-478 | recording a result keeps the invariant, whichever running node reports |
| `SchedulerState.SettledMatchesVerdict` | graph/graph.go:547-645 | in every reachable state a settled node has settled as its verdict says, with the verdict's data |
| `SchedulerState.WaitingIsStuck` | graph/graph.go:547-645 | at quiescence a node still waiting is one whose verdict says it never can start |
| `Scheduler.GraphScheduler.constructor` | graph/graph.go:506-529 | the initial counters are the plain and condition in-degrees |
| `Scheduler.GraphScheduler.StartEntries` | graph/graph.go:532-542 | afterwards exactly the nodes without in-edges run, each on the run's input, nothing has settled, nothing else is ready, and the invariant holds |
| `Scheduler.GraphScheduler.TryStart` | graph/graph.go:547-563 | terminates, keeps the invariant, leaves no ready node waiting, and walks only the out-edges of nodes it skips |
| `Scheduler.GraphScheduler.Skip` | graph/graph.go:582-601 | the same for the cascade of virtual completions |
| `Scheduler.GraphScheduler.Complete` | graph/graph.go:608-645 | walks exactly the out-edges of the finished node and of those skipped because of it |
| `Scheduler.GraphScheduler.RunLoop` | graph/graph.go:436-478 | whatever order nodes report in: the run succeeds exactly when no verdict is a failure, then every node is where its verdict says and the skipped nodes are exactly those reached only through unchosen branches; if only conditions have labelled out-edges every node was completed or skipped, none both; each node starts at most once, so results never exceed the channel's capacity; in its own terms (`RunSpec.RunIs`): a completed node started on the run's input or on its predecessors' data, first one first, and left what its function returned, a condition with its choice under "branch" and "output"; after an error some node's function failed on such data |
| `RunSpec.OneRunOnly` | graph/graph.go:436-478 | there is one such run only, so the order in which nodes report changes neither what completes nor any data |
| `RunSpec.InputIsStart` | graph/graph.go:690-716 | what a node starts on, key by key |
| `RunSpec.DataFlowsAlways` | graph/graph.go:547-563 | in every reachable state, also of a failing run, the completed nodes started on and left the right data |
| `Scheduler.OutEdgeFresh` | graph/graph.go:591-600 | a cascade below an out-edge never walks a later out-edge of the same node |
| `Routing.SkippedIff` | graph/graph.go:554-558 | the verdict of a node is skipped exactly when it has in-edges, all from conditions, each itself skipped or finished with another label chosen |
| `Routing.SkippedExactly` | graph/graph.go:547-601 | the same of the scheduler's `skipped` set, in every state in which the loop waits |
| `Routing.EveryNodeSettles` | graph/graph.go:444-477 | when nothing runs any more and only conditions have labelled out-edges, done and skipped nodes partition the graph |
| `Routing.SettlesWithoutMisrouting` | graph/graph.go:547-645 | if only conditions have labelled out-edges, an error-free run settles every node |
| `Routing.TargetStrands` | graph/graph.go:617-643 | every target of such a node, once it completes, never becomes ready |
| `Routing.FateIsVerdict` | graph/graph.go:547-645 | what becomes of a node is decided by the graph and the branch each condition picks |
| `Routing.UnsettledRunStrands` | graph/graph.go:617-643 | an error-free run that leaves a node unsettled gives picks that reach a misrouting node without a failure |
| `Routing.StrandingRun` | graph/graph.go:617-643 | such picks give an error-free run that leaves a node unsettled |
| `Routing.AlwaysSettlesIff` | graph/graph.go:517-526 | all error-free runs settle all nodes if and only if there are no such picks; there are none if only conditions have labelled out-edges, and only then if every condition has an out-edge |
| `Routing.StrandedExample` | graph/graph.go:608-645 | the two-node graph on which this happens |
| `Routing.CountersExact` | graph/graph.go:623-643 | without misrouting, also in the middle of a cascade: the counters are the numbers of plain and condition in-edges not walked yet and of selected ones, never negative, and edges of unsettled sources are not walked |
| `Routing.CountersWhileWaiting` | graph/graph.go:500-503 | whenever the loop waits: `remaining` counts in-edges from unsettled plain sources, `condPending` those from unsettled conditions, `condPassed` those whose finished source chose their label, each up to the in-edges of finished misrouting sources |
| `Routing.StartsAfterPredecessors` | graph/graph.go:547-563 | nothing starts, completes or is skipped before all its predecessors have settled |
| `SessionLog.ApplyReplaceScratch` | core/session/log.go:212-245 | the scan computes the replacement: the run starting at `from` of exactly `to-from+1` nodes inside the range gives way to the new node, or the range is refused |
| `SessionLog.Log.Append` | core/session/log.go:127-156 | commits one record under the next number with its effect on the surface, or reports why not and changes nothing |
| `SessionLog.Log.Restore` | core/session/log.go:168-206 | succeeds exactly on an open empty log and contiguous replayable records; a failure changes nothing |
| `SessionLog.Log.DeriveMessages` | core/session/log.go:283-293 | by positions: exactly the messages of the surface nodes that have one, in surface order |
| `SessionLog.DerivesOnce` | core/session/log.go:283-293 | there is one such list only |
| `SessionLog.RestoredHistory` | core/session/log.go:168-206 | so a log restored from another one's records derives the same history |
| `SessionLog.AppendedHistory` | core/session/log.go:140-153 | an appended record's message comes last in the history; a log-only record, or one with an unknown operation, leaves the history alone |
| `SessionLog.ReplacedHistory` | core/session/log.go:253-261 | a replacement's message stands where the messages of the shadowed run stood, and the rest of the history is kept |
| `SessionLog.ReplaceIff` | core/session/log.go:212-245 | a replacement is accepted exactly when the surface holds a run that starts with `from` and is as many nodes inside the range as that is long; the new node takes the place of that run |
| `SessionLog.RestoreIffCommitted` | core/session/log.go:168-206 | the restorable lists are exactly those that sequences of appends commit, with the same surface |
| `SessionLog.RunIsWholeRange` | core/session/log.go:212-245 | as many distinct numbers as the range is long, all inside it, are the whole range |
| `SessionLog.ReplaceRemovesRange` | core/session/log.go:253-261 | a successful replacement removes exactly the numbers from..to and adds its own |
| `SessionLog.SurfaceSound` | core/session/log.go:127-156 | surface numbers are distinct and assigned, and each node carries its own record's kind and message |
| `SessionLog.NothingLost` | core/session/log.go:127-156 | expanding the surface left to right lists the append records in log order, each once; every record that entered the surface belongs to exactly one live node |
| `SessionLog.SeqListsExact` | core/session/log.go:127-156 | those lists hold exactly the append (and replacement) records, strictly increasing |
| `SessionLog.ExpandIsReplay` | core/session/log.go:253-261 | forgetting what the nodes stand for gives the surface |
| `JsonRepair.StrScan.Step` | jsonx/jsonx.go:236-279 | one rune through the four string states |
| `JsonRepair.Repair` | jsonx/jsonx.go:317-383 | the builder loop computes the repaired text |
| `JsonRepair.RepairInSQ` | jsonx/jsonx.go:437-463 | what a rune inside a single-quoted string turns into |
| `JsonRepair.WordsDoNotMove` | jsonx/jsonx.go:236-279 | outside strings, word runes leave the scanner's state alone |
| `JsonRepair.StepInLockstep` | jsonx/jsonx.go:317-463 | one turn of repair's loop keeps its string state equal to the scanner's, also when it jumps over a bare key |
| `JsonRepair.RepairScansLikeScanner` | jsonx/jsonx.go:225-279 | wherever the loop stands, its string state is that of scanning the same prefix rune by rune |
| `JsonRepair.ApostropheIff` | jsonx/jsonx.go:283-293 | a structural quote is an apostrophe if and only if the nearest rune before it that is not blank is a word rune |
| `JsonRepair.NextRuneIff` | jsonx/jsonx.go:297-307 | a quote closes a single-quoted string unless the next rune that is not blank is a word rune; a comma is trailing if that rune closes a bracket |
| `JsonIdentity.TokenNoKey` | jsonx/jsonx.go:478-495 | literals and numbers of a valid text are never taken for bare keys |
| `JsonIdentity.SeparatorCopies` | jsonx/jsonx.go:466-472 | separator commas of a valid text are never taken for trailing ones |
| `JsonIdentity.ValueCopies` | jsonx/jsonx.go:317-383 | every value of a valid text is copied rune by rune |
| `JsonIdentity.RepairIsIdentityOnValid` | jsonx/jsonx.go:317-383 | repair leaves every valid JSON text as it is |
| `JsonIdentity.RepairString` | jsonx/jsonx.go:82-97 | returns the repaired text if the decoder accepts it, and a text the decoder accepts unchanged |
| `JsonIdentity.RepairStringIdempotent` | jsonx/jsonx.go:82-97 | what it returns, it returns again |
| `JsonDefects.RepairMends` | jsonx/jsonx.go:309-463 | every text with typographic, full-width or single quotes (nested, with apostrophes), raw control runes, bare keys, full-width colons and commas, trailing commas and stray closing quotes is repaired to the strict JSON text it stands for |
| `JsonDefects.BodyWrites` | jsonx/jsonx.go:387-463 | what is written for the contents of such a string |
| `JsonDefects.LooseWrites` | jsonx/jsonx.go:317-383 | what is written for such a value, wherever it stands |
| `JsonDefects.RawMeansItself` | jsonx/jsonx.go:387-410 | the escape of a control rune denotes that rune |
| `JsonDefects.ControlStays` | jsonx/jsonx.go:412-434 | between full-width quotes other control runes than newline, carriage return and tab stay |
| `JsonExtract.ValueEnd` | jsonx/jsonx.go:199-220 | the bracket that brings the depth back to zero, brackets inside strings not counted |
| `JsonExtract.ValueStarts` | jsonx/jsonx.go:176-195 | the opening brackets outside strings, in order, at most 32 |
| `JsonExtract.ExtractValue` | jsonx/jsonx.go:145-166 | the whole text if the decoder accepts its repair, else the first candidate whose repair it accepts |
| `JsonExtract.ValueEndExact` | jsonx/jsonx.go:199-220 | from the first bracket of an embedded valid array or object, the scan ends at its last one |
| `JsonExtract.ExtractsIff` | jsonx/jsonx.go:145-220 | for any text and decoder: the search returns `t` if and only if `t` is the accepted candidate at a bracket outside strings with fewer than 32 brackets outside strings before it, all of them rejected |
| `JsonExtract.ExtractsEmbedded` | jsonx/jsonx.go:145-220 | so an array or object that the decoder accepts is found if the scanner stands outside strings in front of it and fewer than 32 earlier candidates were all rejected |
| `JsonExtract.ExtractsBehindProse` | jsonx/jsonx.go:145-220 | in particular behind prose without double quotes and opening brackets whose single quotes are apostrophes |
| `Messages.PairedIffWellPaired` | module/guard/guard.go:459-499 | the block-by-block form of the pairing rule agrees with the rule stated by positions |
| `Messages.PairedAppend` | engine/steploop.go:112-116 | well-paired pieces concatenate to a well-paired history |
| `Messages.ShapeKeepsPaired` | module/guard/guard.go:582-595 | rewriting contents does not break pairs |
| `Guard.RepairToolPairing` | module/guard/guard.go:459-499 | the index loops drop nil messages, stray tool messages and incomplete blocks, and nothing else |
| `Guard.RepairIsPaired` | module/guard/guard.go:459-499 | the result is well paired |
| `Guard.RepairIsSubsequence` | module/guard/guard.go:459-499 | and drawn from the input in order |
| `Guard.RepairKeepsExactly` | module/guard/guard.go:459-499 | by positions: kept are exactly the messages that are not nil, callers whose calls are all answered behind them with their tool messages, and what is neither caller nor tool message |
| `Guard.RepairIdentityIffPaired` | module/guard/guard.go:459-499 | it is the input itself exactly when the input is well paired |
| `Guard.RepairIdempotent` | module/guard/guard.go:459-499 | repairing twice is repairing once |
| `Guard.DroppedMessages` | module/guard/guard.go:261-281 | the reported messages are the multiset difference of the contents before and after, in the order of the history |
| `Guard.KeysDiffer` | module/guard/guard.go:283-286 | equal keys mean equal role, IDs and content, unless a bar stands in one of the first three |
| `Guard.CompactMessages` | module/guard/guard.go:582-595 | over-long tool results are shortened, one by one; everything else is kept |
| `Guard.Trim` | module/guard/guard.go:308-367 | terminates; fits the budget or has at most two messages; untouched, compacted, or a well-paired window of the first message and a suffix that keeps more than half of the widest fitting window among those no wider than the first guess; keeps pairs |
| `Guard.HalveOnce` | module/guard/guard.go:349-366 | one halving never skips a fitting window of twice the size |
| `Guard.KeepsHalfIff` | module/guard/guard.go:328-366 | over all widths: no fitting window is twice as wide as the one kept if and only if twice the first guess is more than there is or does not fit |
| `Guard.NarrowGuessExample` | module/guard/guard.go:328-366 | one heavy message makes the guess two although a window of five fits |
| `Guard.RawSays` | module/guard/guard.go:349-355 | a window of `keep` messages is the first one and the last `keep - 1` |
| `Guard.FirstKeepSays` | module/guard/guard.go:328-335 | the first guess counts where it lies between two messages and all of them |
| `Guard.RoomSays` | module/guard/guard.go:390-397 | the reserve is deducted from the budget, at least 64 of it, as long as anything is left |
| `Guard.WindowKeepsPrompt` | module/guard/guard.go:342-347 | a first message that neither answers nor calls tools survives every window |
| `Guard.TailLength` | module/guard/guard.go:390-407 | the kept tail fits the room beside the summary, and one more message would not |
| `Guard.SummaryTrim` | module/guard/guard.go:380-428 | everything between the first message and that tail is summarized into the first message, or the ordinary trim when there is nothing to summarize or no summary; keeps pairs |
| `Guard.EstimateIsMonotone` | module/guard/guard.go:528-541 | quartering a sum of weights, calibrated by anything that grows, never rises when messages are dropped: what the other results ask of the estimate |
| `Guard.SummaryAlwaysFitsIff` | module/guard/guard.go:384-422 | before the summarizer is called, calibrated or not: the history will fit the budget with every summary the summarizer can return if and only if the heaviest prompt they give and the repaired tail fit |
| `Guard.LimitedSummaries` | core/types/message.go:169-216 | with the rune count as weight and the source's own merge, summaries up to a length limit do have a heaviest prompt: the prompt without its old summary, the markup, and the limit in CJK runes |
| `Guard.LimitedSummariesFitIff` | module/guard/guard.go:384-422 | so for them the condition is one on the prompt, the kept tail and the limit |
| `Guard.PromptWithinReserveFits` | module/guard/guard.go:384-422 | uncalibrated: a prompt with summary within the reserve, less the rounding of the kept messages, gives a history that fits |
| `Guard.SummaryOverBudgetExample` | module/guard/guard.go:384-422 | three messages whose compaction is 140 of a budget of 100 |
| `SummaryText.StripCompactedSummary` | module/guard/guard.go:441-453 | what the first turns of the loop make of any text and whether it has returned; where it returns at all, it does within as many turns as the text is long |
| `SummaryText.EndsIff` | module/guard/guard.go:441-453 | the loop ends if and only if it never meets a text whose first closing tag stands before the first opening one |
| `SummaryText.TrapStays` | module/guard/guard.go:441-453 | from such a text a turn leads to another one |
| `SummaryText.TrapExample` | module/guard/guard.go:441-453 | a closing tag followed by an opening one is one |
| `SummaryText.StripBehind` | module/guard/guard.go:441-453 | behind a front without tags that ends in a blank the loop does what it does to the rest alone, and keeps the front up to blanks |
| `SummaryText.ResidueReadOff` | module/guard/guard.go:421-453 | what a summary block alone leaves: nothing if the summary does not quote the closing tag, a text with a closing tag if it quotes that one only, otherwise what the loop makes of the rest behind the first one quoted |
| `SummaryText.BlockIsCutIff` | module/guard/guard.go:421-453 | for a prompt without tags of its own: one turn takes exactly a merged summary out if and only if the summary does not quote the closing tag |
| `SummaryText.BlockLeaves` | module/guard/guard.go:421-453 | for a prompt without tags of its own: stripping leaves the prompt and what the summary block alone leaves, or loops as it does on the block alone |
| `SummaryText.ClosedPromptTraps` | module/guard/guard.go:441-453 | a prompt with a closing tag only cannot be compacted a second time: the loop does not end |
| `SummaryText.OpenPromptIsCut` | module/guard/guard.go:441-453 | a prompt with an opening tag only loses what stands behind that tag |
| `SummaryText.ReplacedIff` | module/guard/guard.go:417-421 | for every stripped prompt: a new summary replaces the old one and nothing else changes if and only if the prompt has no tag of its own left and the old summary leaves nothing |
| `SummaryText.LatestSummaryOnly` | module/guard/guard.go:417-421 | over any number of compactions of any prompt that can be stripped: it holds itself and the latest summary only, if and only if there was one compaction or it has no tag of its own left and all earlier summaries leave nothing |
| `SummaryText.RunEndsIff` | module/guard/guard.go:441-453 | whatever the prompt: a run of compactions ends if and only if the prompt and all summaries but the latest are stripped again and all but the latest two leave no closing tag |
| `SummaryText.QuotedCloseHangs` | module/guard/guard.go:441-453 | a summary that quotes the closing tag only makes the second compaction after it loop for ever |
| `SummaryText.StaleExample` | module/guard/guard.go:417-421 | a summary whose text stays in the prompt when the next one comes |
| `SummaryText.HarmlessExample` | module/guard/guard.go:417-421 | a summary that quotes the closing tag and leaves nothing |
| `Guard.SummaryReplacesIff` | module/guard/guard.go:417-421 | the same for the first message of a history, whenever the next compaction ends |
| `Guard.OnStepStart` | module/guard/guard.go:204-253 | which of these happens at which estimate, and that pairs are kept |
| `ToolExec.ExecConcurrent` | core/orchestrate/orchestrate.go:389-493 | whatever order the executions end in, every call is normalized, so that its ID is not empty, and every slot holds the message of its own call: nil, no registry, unknown, timed out, failed, panicked or succeeded |
| `ToolExec.NormalizeSays` | core/kernel/tool.go:220-233 | an empty ID and empty arguments are filled in, everything else is kept |
| `ToolExec.ResultSays` | core/orchestrate/orchestrate.go:430-487 | a slot holds the tool's own text exactly when it succeeded, otherwise the error text of its own case, with the call's ID and name |
| `ToolExec.CollectFailed` | core/runtime/runtime.go:977-986 | the failed slots, each once, ascending |
| `ToolExec.ExecWithRetry` | core/runtime/runtime.go:953-998 | every call is normalized once and for all; a call is repeated only after failures, at most 1+MaxRetries times, and its slot holds its own last execution; a call left failed has used up its attempts or the wait was cut short |
| `ToolExec.PreparedSays` | core/runtime/runtime.go:1039-1060 | a rewriting hook sets name and arguments and nothing else; otherwise both stay |
| `ToolExec.FireCallHooks` | core/runtime/runtime.go:1039-1060 | every call is normalized and rewritten as its hook says; rejected ones are answered |
| `ToolExec.ExecTools` | core/runtime/runtime.go:1021-1105 | one tool message per call with that call's ID on every path; tools run exactly when there is a registry and no call was rejected, on the calls as the hooks rewrote them; the message of every path; with retries on, a call whose last execution failed was executed more than `maxRetries` times unless a wait was aborted |
| `ToolExec.AnswerSays` | core/runtime/runtime.go:1076-1105 | the message behind an executed call, spelled out: what its last execution came to, as the result hook leaves it |
| `ToolExec.PlainBatch` | core/runtime/runtime.go:1021-1105 | with hooks that change nothing, a call that succeeds at once is executed once, as given, and answered by what its tool returned |
| `ToolExec.FillSkipped` | core/runtime/runtime.go:1061-1075 | an aborted batch still answers the calls that were not rejected |
| `ToolExec.AnsweredIsComplete` | core/runtime/runtime.go:1061-1075 | an answered batch is a complete block behind its caller |
| `StepLoop.LastContent` | engine/steploop.go:302-310 | the text of the last assistant message that has one |
| `StepLoop.ExecPhase` | engine/steploop.go:276-293 | runs the batch: every call ends up normalized and rewritten, and is answered by its rejection, its skip, the missing registry, or its last execution |
| `StepLoop.Step` | engine/steploop.go:99-128 | the model sees what the guard makes of the history; its answer, with the role the provider gave it, and what the batch of its calls comes to are appended behind that; pairs are kept if and only if the answer suits the history |
| `StepLoop.ReplyPairedIff` | engine/steploop.go:112-116 | a reply whose calls are all answered keeps a history well paired if and only if it is an assistant message, or has no calls, or is a tool message in the block of a caller |
| `StepLoop.Run` | engine/steploop.go:63-150 | from a well-paired input, and answers that suit the history they get, as assistant messages always do, every history sent and the one returned are well paired on every way out; the trail of steps, each behind the one before with the answer and what its calls came to; at most maxSteps model calls; usage is the sum over answers; which history and text are returned, none on a cancellation or an error; what ended the run: the step limit, a cancellation, an error of a start hook, the model or the last end hook, an aborting hook, or an answer without calls |
| `Slots.EveryInterleaving` | agents/workflow/slots.go:32-79 | over every interleaving: free plus held slots make n, no slot is free while a ticket waits, and grants follow arrival order |
| `Slots.GrantedInArrivalOrder` | agents/workflow/slots.go:69-79 | once a later arrival has been handed a slot, an earlier one that did not give up has been too |
| `Slots.CancelReturnsHonestly` | agents/workflow/slots.go:44-65 | `acquire` reports true exactly when the caller owns a slot; a hand-off that wins the race is kept, not lost |
| `Slots.SlotQueue.constructor` | agents/workflow/slots.go:22-27 | a non-positive size counts as one |
| `Slots.SlotQueue.AcquireEnter` | agents/workflow/slots.go:33-41 | takes a free slot or joins the queue at its end |
| `Slots.SlotQueue.AcquireCancelled` | agents/workflow/slots.go:46-63 | leaves the queue, or keeps the slot handed over meanwhile |
| `Slots.SlotQueue.ReleaseSlot` | agents/workflow/slots.go:69-79 | hands the slot to the oldest waiter, or frees it |
| `Router.ModelRouter.PickWeighted` | modelrouter/modelrouter.go:348-372 | selects the route whose interval holds the counter's residue; the final fallback is unreachable |
| `Router.ModelRouter.PickRoundRobin` | modelrouter/modelrouter.go:314-319 | the counter modulo the number of routes |
| `Router.OwnerExists` | modelrouter/modelrouter.go:361-371 | every residue belongs to a route |
| `Router.OwnerUnique` | modelrouter/modelrouter.go:361-371 | and to one only |
| `Router.WindowIsExact` | modelrouter/modelrouter.go:346-372 | in every window of W consecutive counter values route i is selected exactly weight_i times |
| `Router.WindowByWeight` | modelrouter/modelrouter.go:353-358 | weight_i is the configured weight if that is positive, and 1 otherwise |
| `Router.UnweightedIsRoundRobin` | modelrouter/modelrouter.go:314-319 | with default weights the weighted policy is the round-robin one |
| `Router.WrapHarmlessIff` | modelrouter/modelrouter.go:360-360 | windows across a wrap are exact too if and only if there is one route or W divides the range |
| `Router.LastRouteLoses` | modelrouter/modelrouter.go:360-360 | otherwise the last route is selected too rarely in the window after the last whole one |
| `Registry.Registry.Register` | core/registry/registry.go:178-187 | adds a new non-empty name; refuses an empty or taken one and changes nothing |
| `Registry.Registry.Unregister` | core/registry/registry.go:242-250 | removes the name and reports the removed value, if any |
| `Registry.Resolve` | core/registry/registry.go:377-385 | the entry of the nearest registering layer |
| `Registry.Snapshot` | core/registry/registry.go:391-421 | exactly the visible names with the nearest layer's values |
| `Registry.SnapShowsWinners` | core/registry/registry.go:415-421 | the snapshot shows a name exactly when some layer registers it, with the nearest layer's value |
| `Registry.Subscription.constructor` | core/registry/registry.go:454-465 | `visible` starts as the nearest registering layer of every name |
| `Registry.Subscription.OnRegistered` | core/registry/registry.go:470-487 | the registration callback's effect and report |
| `Registry.Subscription.OnRemoved` | core/registry/registry.go:488-508 | the removal callback's effect and report |
| `Registry.Subscription.RegisterAt` | core/registry/registry.go:178-199 | a registration and its callbacks make one step of the feed |
| `Registry.Subscription.UnregisterAt` | core/registry/registry.go:242-261 | a removal and its callbacks make one step of the feed |
| `Registry.FeedSays` | core/registry/registry.go:470-508 | what is reported: a registration exactly when it becomes the resolved entry, with that value; a removal exactly when the name disappears, with the value it had |
| `Registry.EveryRun` | core/registry/registry.go:454-518 | after any operations `visible` is the nearest registering layer, and folding the feed over the initial names gives the snapshot's names |
| `Registry.StepAgreesIff` | core/registry/registry.go:436-443 | one operation breaks the agreement of folded values exactly when it reveals a different outer value |
| `Registry.ValuesAgreeIff` | core/registry/registry.go:436-443 | folded values agree with the snapshot all along a run if and only if no operation does that |
| `Registry.StaleValueExample` | core/registry/registry.go:496-503 | the smallest run in which they differ |
| `Hub.Hub.constructor` | core/hub/hub.go:104-121 | non-positive bounds become 512 |
| `Hub.Hub.Publish` | core/hub/hub.go:138-167 | appends to the stream's retained tail and offers to every subscriber; over any run queues stay bounded suffixes of what was sent, and what a consumer received followed by its queue is drawn in order from it |
| `Hub.OfferKeepsSuffix` | core/hub/hub.go:151-165 | a non-blocking send loses oldest events only, also when the consumer races with it |
| `Hub.OfferConserves` | core/hub/hub.go:151-165 | received and queued events together lose at most one per send: the oldest one left in a full queue |
| `Hub.OfferKeepsOrder` | core/hub/hub.go:151-165 | and stay drawn, in order, from what was sent |
| `Hub.Hub.Subscribe` | core/hub/hub.go:175-191 | a fresh empty queue; nothing is replayed into it |
| `Hub.Hub.Replay` | core/hub/hub.go:201-220 | the retained events after the watermark, in publish order |
| `Hub.AfterFilters` | core/hub/hub.go:193-220 | whatever the numbers: exactly the retained events above the watermark, in publish order |
| `Hub.ReplayIsCatchUp` | core/hub/hub.go:193-220 | with increasing numbers these are all events after the watermark that the bound has not evicted |
| `Hub.Hub.Forget` | core/hub/hub.go:224-231 | releases one stream and nothing else |
| `TailStore.Store.Write` | core/jobs/jobs.go:149-161 | the buffer is the newest cap bytes of everything written |
| `TailStore.Store.Read` | core/jobs/jobs.go:165-179 | everything after the cursor that is retained, and the new cursor, for any cursor |
| `TailStore.NoDuplicates` | core/jobs/jobs.go:163-179 | polling with returned cursors never delivers a byte twice or out of order |
| `TailStore.GaplessIff` | core/jobs/jobs.go:132-179 | and misses nothing if and only if no poll came more than the retained tail behind |
| `Glob.Matcher.MatchSegments` | internal/toolutil/toolutil.go:186-217 | terminates, decides the declarative relation, leaves only right answers in the memo and drops none |
| `Glob.GlobMatch` | internal/toolutil/toolutil.go:166-182 | the same for whole patterns, one trailing slash ignored, an empty pattern matching the empty path only |
| `Glob.SlashDoesNotMatter` | internal/toolutil/toolutil.go:170-174 | one trailing slash on either side does not matter, a second one does; an empty pattern matches the empty path only |
| `Glob.StarStep` | internal/toolutil/toolutil.go:201-210 | `**` takes no segment, or one and goes on |
| `Glob.AdjacentStarsCollapse` | internal/toolutil/toolutil.go:201-210 | two adjacent `**` are one |
| `Glob.WithoutStarsPositional` | internal/toolutil/toolutil.go:175-181 | without `**` the match is segment by segment, so `*` never crosses a separator |
| `Glob.SplitJoins` | internal/toolutil/toolutil.go:179-181 | splitting loses nothing and leaves no slash inside a segment |

## Left out

- Scheduler.GraphScheduler.RunLoop: goroutines are the map of running nodes; cancellation, timeouts, `drainResults`, interrupts and the returned final state (the last result to arrive, so order dependent) are not modelled. Retries belong to the node functions.
- Scheduler.GraphScheduler.StartEntries: the node states are data values here, as every execution works on a fork of what it inherits; that a single predecessor's own object is handed over is stated by GraphStates.CollectPredecessorState only.
- GraphStates.GraphState.MergeFrom: watchers, timestamps, `Clear` and string rendering are not modelled, and two states are never merged into each other at once.
- SessionLog.Log.Append: watchers, IDs, timestamps and 64-bit overflow of the sequence number are not modelled; `SurfaceSeq`, `Seq` and `Len` only read fields.
- JsonIdentity.RepairString: the decoder is the parameter `accepts`, assumed to accept texts of the grammar only; it may reject some, such as numbers out of range; texts are sequences of runes, so invalid UTF-8, depth limits and `TrimSpace` are not modelled. `Parse`, `Unmarshal` and `LenientBool` are left out.
- JsonDefects.RepairMends: several commas in a row, bare keys behind a full-width comma and quotes that close nothing inside single-quoted strings are not among the texts, as the code does not mend them; nor are texts cut off in the middle.
- Guard.Trim: the floating-point ratio is an arbitrary first window and the estimate an arbitrary function that dropping messages never raises; the moving average behind it, the report and the OnTrim callback are not modelled. Histories are values, so the in-place rewriting of the caller's slice is not captured.
- Guard.SummaryTrim: the text surgery on the prompt is the total function `mergeSummary`, so compactions on which the stripping loop does not end (`SummaryText.EndsIff`) are not runs of this model; an error or a blank summary is None. A nil first message is kept and then dropped here, while the code would dereference it.
- ToolExec.ExecWithRetry: time-outs, panics and the context are outcomes of an execution; content parts and metadata of messages are not modelled.
- StepLoop.Step: a reply's own tool-call ID and tool name are empty here.
- StepLoop.Run: streaming and the merge of tool-call deltas, events, the default step limit and hooks other than the guard that rewrite messages are not modelled; error values are reduced to the reason.
- Slots.SlotQueue.AcquireEnter: a channel is a ticket number, and the select is the choice of the next step.
- Router.ModelRouter.PickWeighted: the sum of weights is unbounded here, so overflow of that sum is not modelled; failover, protection and circuit breaking are left out.
- Registry.EveryRun: an operation and its callbacks are one step, and the layers are distinct and unlinked; linked parents bubble removals under the outer layer's index. `List` is covered without its sorting by name.
- Hub.Hub.Publish: an arbitrary number of receives may fall between the failed send and the drop; closing of channels and `Len` are left out.
- TailStore.Store.Read: job lifecycle, owners and notices are left out.
- Glob.GlobMatch: `filepath.Match` on one segment is an arbitrary predicate, and paths already use slashes.
- LLM clients, HTTP, MCP subprocesses, file and checkpoint stores, subagents, prompts, option setters, goal phases and audit sampling are input/output or single-branch facts.

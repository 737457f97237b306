# A verified model of loopctl's safety and bookkeeping cores

loopctl drives an LLM agent loop. This project models the parts of it that decide something on
their own and whose mistakes would be silent: who may approve a tool call, when the circuit breaker
trips and which model serves then, what a live MCP sync does to a shared tool registry, when the
budget refuses a request, what a compaction pass may hand back, how messages are folded and counted,
and the calculator example's parser. The results are for all inputs, all runs or all interleavings;
where the source's words are false, a single concrete run or history is shown that breaks them
(`Ask.UndeliveredApprovalIsReachable`, `Ask.WindowStrandsAPark`, `Adoption.AdoptedCanOutgrow`,
`Ratio.SharedScaleIsNotExact` and the like), beside the exact condition. Nothing here is executed.

| file | models | form |
|---|---|---|
| `Ask.dfy` | the approval channel of `src/ask.rs` as an interleaving of atomic steps | a step function, and a class with one method per step |
| `Breaker.dfy` | the three-state circuit breaker with its fallback chain, `src/fallback.rs` | a step function, and a class whose ghost history records what it took note of |
| `McpSync.dfy` | the server / baseline / registry reconcile of `src/mcp.rs`, over `src/tool/registry.rs` | functions on registries, and the two classes that update them |
| `McpInterleaved.dfy` | the same sync call by call, with other writers in between | a step function over every interleaving |
| `Budget.dfy`, `Duration.dfy` | the spend gate of `src/budget.rs` and its duration strings | a step function, a class, and a loop proved against a grammar |
| `Messages.dfy` | the assistant-coalescing pass of `src/message.rs` | a fold and the loop that computes it |
| `Tokens.dfy` | the two token counters of `src/compact.rs` | functions and the saturating loop |
| `Pins.dfy`, `Compaction.dfy` | the pin registry and the contract of a compaction pass, `src/compact.rs` | functions, insertion loops, and the manager class |
| `Adoption.dfy` | when coalescing brings an adopted history over the limit its pass met | lemmas over every counter, and over every ratio counter |
| `NoAction.dfy` | when "no action" hands back the history it was given | lemmas over every compactor |
| `Ratio.dfy` | the shared-scale ratio of `src/numeric.rs` | functions |
| `Parser.dfy` | the recursive-descent parser of `examples/chat.rs` | a grammar, and three mutually recursive methods with a cursor |
| `Names.dfy`, `Common.dfy`, `Arithmetic.dfy` | sorting of names in byte order; saturating arithmetic, trimming; products and quotients | functions and lemmas |

The method everywhere: a class or a loop has the source's own form and is proved equal to a function
of its old state, and the promises of the source are proved about that function over whole runs.

What callers must provide, and the source does too: distinct ask ids (two parks under one id share
a slot), distinct names in a fallback chain (marking reaches the first match only), one target
registry per provider, and a breaker configuration that stays fixed. Each is a `requires` of exactly
the statements that need it; the main safety result of the approval channel needs none.

## Where the source's words and its code part

The model follows the code. These statements are false as written and are proved in their exact form.

- Dropping the approver does not deny every ask still awaiting (`src/ask.rs:348-370`): the `Drop` body
  drains the map and only later does the receiver field close the queue. `Ask.StrandedExactlyInTheWindow`
  gives the exact window, `Ask.WindowStrandsAPark` a run that hits it.
- An answer the approver saw accepted is not always what the park returns (`src/ask.rs:277-346`): before
  the ask is sent, an approver that goes away turns it into a denial (`Ask.UndeliveredAnswerIsLost`).
  `Ask.AnswerReturnedIff` has the exact condition: the answer was Deny, or the send had completed.
- `next_pending` does not resolve to None once the engine is gone (`src/ask.rs:320-324`): the approver that
  calls it holds the state the only sender lives in, so it waits (`Ask.ReceiveNeverEnds`).
- The breaker's sticky flag is not "never reset" (`src/fallback.rs:425-430`): entering Primary clears it at
  line 1761, as `Breaker.PrimaryForgetsTheTrip` shows. `Breaker.RunInvariant` says what it means: Fallback was
  entered since the last entry to Primary.
- `record_failure` answers true also for a transient re-trip from Recovering (1469-1475) and false for a
  rate-limited one (1459-1464): `Breaker.ReportsTripExactlyAtThreshold`.
- `sync_into` does write over a foreign entry when the baseline has no record of the name
  (`src/mcp.rs:962-965`), and over one with the remembered schema when the server's tool changed; and a foreign
  entry with the remembered schema under a name the server dropped is removed, against `src/mcp.rs:882-886`.
  `McpSync.ForeignEntryKeptIff` says for every name when a foreign entry survives, and
  `McpInterleaved.SyncLosesIff` when one that lands during a sync is lost.
- The USD line without a price table is not inert when its line is zero (`src/budget.rs:644-673`):
  `Budget.UnpricedUsdLine`.
- The scaled ratio is not exact (`src/numeric.rs:209-214`). `Ratio.ExactIff` says for which counts it is, in
  terms of the scale and of their greatest common divisor.
- "No action" is said to return the original input unchanged (`src/compact/types.rs:743-748`); a
  same-length rewrite that does not shrink comes back rewritten (`Compaction.NoActionCanRewrite`).
  `NoAction.NoActionIsTheInputIff` and `NoAction.EnsureNoActionIsTheInputIff` say for which histories the input
  comes back whatever the compactor does, and `NoAction.PinnedInputComesBackIff` says it for both counters.
- "Every compacted history carries the pins": an empty history is handed back without any
  (`src/compact.rs:1438-1440`). `Compaction.PinsAlwaysCarriedIff` has both directions.
- `ensure_context_fits` does not ensure a fit when automatic compaction is off: `Compaction.LetThroughFitsIff`.
- A pass that succeeds fits (`src/compact.rs:1462-1484`), but what the machine adopts is its output coalesced
  (`src/engine/core/machine.rs:801-818`), and a ratio counter can measure that higher. Adopted is only a rewrite
  that lowers the driver's figure, a manual one only if it is no longer than the history
  (`src/engine/bare/compact.rs:351-361`). `Adoption.AdoptedCanOutgrow` is such a rewrite whose history ends up
  over its window. `Adoption.AdoptedFitsIff` says for which outputs it fits,
  `Adoption.RatioAdoptedAlwaysFitsIff` and `Adoption.MayRaiseIff` for which counters it always does; the
  crate's presets are among them (`Adoption.PresetsNeverRaised`).
- The pin guard measures the set with the new statement last, the registry keeps it in place, so
  under a counter that depends on order an accepted set can measure over the target
  (`Pins.OrderCanSlipThrough`). `Pins.AcceptedFitsIff` and `Pins.RemovalFitsIff` say for which statements and
  removals no counter can do that; `Pins.RegistryInvariant` covers whole runs under a fair counter, and both of
  the crate's counters are fair.

## Model

| member | source | states |
|---|---|---|
| `Ask.ApprovedOnlyByAnswer` | src/ask.rs:277-346 | in every interleaving, even with colliding ids, a park that ends with Approve was itself answered Approve by a call that returned true |
| `Ask.AnsweredAtMostOnce` | src/ask.rs:337-346 | the approver's resolve returns true at most once per park, and per id when ids are distinct |
| `Ask.AnswerAcceptedIff` | src/ask.rs:337-345 | while the approver lives and ids are distinct, its answer to an id is accepted for a park if and only if the park has that id, is parked on its ask and is not answered yet |
| `Ask.AnswerTakesEffect` | src/ask.rs:296-345 | an accepted answer is what a waiting park returns at its next poll; a refused one changes no park and is not logged |
| `Ask.DeliveredAnswerIsReturned` | src/ask.rs:296-299 | a true answer to a delivered ask is what its park returns, unless it was cancelled |
| `Ask.OnlyCancelledEndsUnresolved` | src/ask.rs:277-302 | without its own cancellation no schedule ends a park without a resolution |
| `Ask.AnswerReturnedIff` | src/ask.rs:277-346 | an uncancelled park that ended returned its accepted answer if and only if that was Deny or its send had completed, in every interleaving and even with colliding ids |
| `Ask.UndeliveredAnswerIsLost` | src/ask.rs:293-295 | whatever was answered to a park that has not sent yet turns into Deny when the approver goes away first |
| `Ask.UndeliveredApprovalIsReachable` | src/ask.rs:284-295 | that situation occurs: an approval accepted between the insertion and the send |
| `Ask.SlotsHaveOneLiveGuard` | src/ask.rs:229-235 | with distinct ids a slot in the map belongs to exactly one park and its guard is still live |
| `Ask.StrandedExactlyInTheWindow` | src/ask.rs:348-370 | once closed, an unfinished park is left without an answer if and only if it inserted after the drain and sent before the close |
| `Ask.LeftBehindIsDenied` | src/ask.rs:281-301 | every other unfinished park ends at its next poll, approved if it was told so and denied otherwise |
| `Ask.StrandedForever` | src/ask.rs:348-370 | no continuation without its cancellation ever ends a stranded park |
| `Ask.WindowStrandsAPark` | src/ask.rs:348-370 | a four-step run that strands a park |
| `Ask.DeliveryIsFifo` | src/ask.rs:262-274 | until the close the asks sent are the asks delivered followed by the queue, in order, and the queue keeps to its capacity |
| `Ask.ApprovalChannel.Pair` | src/ask.rs:262-274 | a fresh channel has room for at least one ask and satisfies the invariant |
| `Ask.ApprovalChannel.Start` | src/ask.rs:284-292 | inserting the sender and arming the guard is one atomic step |
| `Ask.ApprovalChannel.PollSend` | src/ask.rs:293-295 | the send completes, fails on a closed queue, or stays pending exactly when the queue is full |
| `Ask.ApprovalChannel.PollReceive` | src/ask.rs:296-299 | the receive yields the one-shot's value, Deny for a lost sender, or stays pending |
| `Ask.ApprovalChannel.Cancel` | src/ask.rs:281-301 | dropping the future at any await leaves the channel in the state of the cancel step |
| `Ask.ApprovalChannel.DropGuard` | src/ask.rs:229-235 | the guard removes the slot of its id |
| `Ask.ReceiveNeverEnds` | src/ask.rs:319-327 | with the engine gone, every park ended and nothing queued, next_pending still waits, under every continuation of the approver's life |
| `Ask.ApprovalChannel.NextPending` | src/ask.rs:325-327 | yields the oldest ask or nothing yet, and never the end of the asks |
| `Ask.ApprovalChannel.Resolve` | src/ask.rs:337-345 | consumes the slot whatever happens, and returns true exactly when the slot's receiver was listening: then that park's one-shot holds the answer |
| `Ask.ApprovalChannel.DrainMap` | src/ask.rs:358-369 | whatever order the map yields, every listening slot is denied and the map is empty |
| `Ask.ApprovalChannel.CloseQueue` | src/ask.rs:314-317 | the receiver field goes away after the drop body and takes the queued asks with it |
| `Breaker.RunInvariant` | src/fallback.rs:1431-1488 | over every run of calls the two counters are their full-history streaks, at most one is nonzero, both are zero in Fallback, each stays under its threshold, the cached fallback is the first usable one, and the sticky flag means Fallback was entered since Primary |
| `Breaker.TripsExactlyAtThreshold` | src/fallback.rs:1431-1488 | a failure trips exactly when the failure streak reaches max(1, threshold), or a probe is rate-limited |
| `Breaker.ClosesExactlyAtThreshold` | src/fallback.rs:1545-1566 | a success closes the circuit exactly when the success streak reaches max(1, needed) |
| `Breaker.TrippedIff` | src/fallback.rs:1431-1488 | record_failure answers true exactly for a failure that enters Fallback other than a rate-limited re-trip |
| `Breaker.ReportsTripExactlyAtThreshold` | src/fallback.rs:1431-1488 | over any run, record_failure answers true exactly outside Fallback for the failure that completes the streak of the whole history, a rate-limited probe aside |
| `Breaker.ActiveModelIsConfigured` | src/fallback.rs:856-862 | after any run only the original model serves outside Fallback and only the first usable chain member inside it; none exactly when all have failed |
| `Breaker.ChainServedInOrder` | src/fallback.rs:1163-1174 | with distinct names, failing turns in Fallback serve each usable model as often as its remaining budget, in chain order, then none forever |
| `Breaker.ReachedChainServedInOrder` | src/fallback.rs:1163-1174 | so it is from every Fallback state a run of calls reaches, as long as the chain's names are distinct |
| `Breaker.PrimaryForgetsTheTrip` | src/fallback.rs:1756-1767 | whatever happened before, a trip followed by an entry to Primary leaves the sticky flag clear |
| `Breaker.SwitchIsStamped` | src/fallback.rs:1650-1670 | over any run the switch time is that of the last call that entered Fallback, tripped or by hand, a re-trip included, and none after the last entry to Primary |
| `Breaker.ResumesExactlyAfterMinimum` | src/fallback.rs:1614-1624 | over any run it is time to try the primary exactly when Fallback was entered last and the minimum time has passed since the call that entered it |
| `Breaker.SwitchThenResume` | src/fallback.rs:1614-1670 | after a switch by hand, exactly from its time plus the minimum on |
| `Breaker.FailedTurnAdvances` | src/fallback.rs:213-232 | each failing turn costs exactly one unit of the chain's budget and one serving |
| `Breaker.ServingOrderLength` | src/fallback.rs:213-232 | the number of servings is the sum of the remaining budgets |
| `Breaker.MarkingReachesFirstNameOnly` | src/fallback.rs:1163-1174 | a failed turn moves the chain on if and only if the serving entry is the first under its name |
| `Breaker.RemoveUndoesInsert` | src/fallback.rs:1035-1088 | removing a name right after inserting it anywhere restores the breaker, when the name was new |
| `Breaker.AddIsInsertAtEnd` | src/fallback.rs:995-1051 | adding equals inserting at or past the end |
| `Breaker.SetChainReadsBack` | src/fallback.rs:1113-1127 | a chain set from valid names reads back as the trimmed names, all usable; one invalid name changes nothing |
| `Breaker.PrimaryRestoresTheChain` | src/fallback.rs:1756-1767 | closing the circuit gives every available model its full budget back and keeps the order |
| `Breaker.WithMaxFail` | src/fallback.rs:200-207 | the new failure threshold is max(n, 1), an entry that has failed stays failed, and the attempts of the others stand |
| `Breaker.Validated` | src/fallback.rs:382-391 | a name is accepted exactly when something is left after trimming, and what is kept is the trimmed name |
| `Common.TrimIs` | src/fallback.rs:382-391 | trimming takes whitespace off both ends, all there is and nothing else |
| `Common.WhitespaceIs` | src/fallback.rs:382-391 | whitespace is the twenty-five characters of the Unicode property |
| `Breaker.FallbackManager.RecordFailure` | src/fallback.rs:1431-1488 | makes the failure step, keeps the invariant, answers as specified |
| `Breaker.FallbackManager.RecordSuccess` | src/fallback.rs:1545-1566 | makes the success step and keeps the invariant |
| `Breaker.FallbackManager.ResetFailureCounter` | src/fallback.rs:1511-1516 | makes the reset step and keeps the invariant |
| `Breaker.FallbackManager.TransitionToFallback` | src/fallback.rs:1650-1670 | enters Fallback with both counters zero, the flag set and the switch stamped with the present time |
| `Breaker.FallbackManager.TransitionToRecovering` | src/fallback.rs:1701-1713 | enters Recovering with the success counter zero |
| `Breaker.FallbackManager.TransitionToPrimary` | src/fallback.rs:1742-1767 | enters Primary with everything cleared and the cached fallback recomputed |
| `Breaker.FallbackManager.ShouldTryResumePrimary` | src/fallback.rs:1614-1624 | says yes exactly in Fallback once the minimum time has passed since the stamped switch |
| `Breaker.FallbackManager.GetActiveModel` | src/fallback.rs:856-862 | reads the serving model of the specification |
| `Breaker.FallbackManager.Recompute` | src/fallback.rs:1811-1817 | the scan finds the name of the first entry that has not failed |
| `Breaker.FallbackManager.SetOriginalModel` | src/fallback.rs:788-797 | installs a valid name, changes nothing for an invalid one |
| `Breaker.FallbackManager.SetFallbackModel` | src/fallback.rs:900-913 | replaces the chain by one fresh entry, or nothing |
| `Breaker.FallbackManager.AddFallbackModel` | src/fallback.rs:995-1007 | appends a fresh entry and keeps the cache right |
| `Breaker.FallbackManager.InsertFallbackModel` | src/fallback.rs:1035-1051 | inserts at the index, or at the end past it |
| `Breaker.FallbackManager.RemoveFallbackModel` | src/fallback.rs:1077-1088 | removes the first entry of the name |
| `Breaker.FallbackManager.SetFallbackModels` | src/fallback.rs:1113-1127 | all names are validated before any is installed |
| `Breaker.FallbackManager.MarkFallbackFailed` | src/fallback.rs:1163-1174 | counts one failure of the first entry of the name |
| `Breaker.FallbackManager.ClearFallbackFailed` | src/fallback.rs:1199-1210 | forgets the failures of that entry |
| `Breaker.FallbackManager.ClearAllFallbackFailed` | src/fallback.rs:1237-1245 | forgets the failures of every entry |
| `Breaker.FallbackManager.SetFallbackAvailable` | src/fallback.rs:1346-1361 | sets the availability of the first entry of the name |
| `McpSync.DiscoverIsDistinct` | src/mcp.rs:1340-1373 | a discovery exposes no name twice |
| `McpSync.DiscoverKeepsTheFirst` | src/mcp.rs:1352-1371 | a tool is discovered exactly when it is the first of the listing to carry its name |
| `McpSync.Bridged` | src/mcp.rs:1411-1469 | an entry without a name is skipped; any other is adapted field by field, exposed under its prefixed name, with the defaults of absent hints |
| `McpSync.PrefixIsInjective` | src/mcp.rs:1386-1390 | under one prefix two entries are exposed under one name only if the server gave them one |
| `McpSync.RegisterAllAt` | src/mcp.rs:856-862 | registering a snapshot puts each tool under its name and in the baseline and touches no other name |
| `McpSync.SyncAt` | src/mcp.rs:914-977 | the whole effect of a sync on one name: written, kept, removed or untouched |
| `McpSync.HeldIsRemembered` | src/tool/registry.rs:273-278 | an entry is the provider's registration exactly when its tool name, description and input are those the baseline remembers |
| `McpSync.SyncReconciles` | src/mcp.rs:914-977 | the whole effect of a sync in terms of the entries themselves: what is registered, kept or removed under every name, listed or not |
| `McpSync.SyncMirrorsTheServer` | src/mcp.rs:914-977 | a discovered name carries the discovered schema afterwards, unless the baseline knew it and the target held something else, which then stays |
| `McpSync.SyncLeavesStrangersAlone` | src/mcp.rs:924-976 | a name in neither the baseline nor the discovery is not touched |
| `McpSync.ForeignEntryKeptIff` | src/mcp.rs:931-967 | a foreign entry survives if and only if, under a listed name, the baseline knows the name and the entry's schema differs from the remembered name, description and input or the server's tool is the remembered one; and, under any other, the schema differs |
| `McpSync.ReportIsDisjoint` | src/mcp.rs:924-976 | added, removed and untouched share no name and repeat none |
| `McpSync.ReportTells` | src/mcp.rs:924-976 | added are the listed names missing in the baseline or the registry, untouched the listed names whose entry is the remembered one, removed the unlisted such names |
| `McpSync.SyncVersion` | src/mcp.rs:914-977 | the registry's version moves by one per added, removed and refreshed name |
| `McpSync.SyncKeepsPositions` | src/mcp.rs:914-977 | survivors keep their registration order and new names follow them |
| `McpSync.SecondSyncIsIdle` | src/mcp.rs:1142-1152 | a second sync over the same discovery mutates nothing and reports nothing added or removed |
| `McpSync.BaselineAlwaysCovers` | src/mcp.rs:682-701 | over any run of registrations, refreshes, syncs, setting changes and foreign writes, every entry this provider wrote last is in its baseline as the very tool registered, annotations, timeout and policy included |
| `McpSync.NoOrphansAfterSync` | src/mcp.rs:807-819 | after any run that ends in a sync, every entry of this provider is the discovered tool of its name: nothing unlisted survives, even if a refresh dropped the name before, and nothing is stale |
| `McpSync.ToolRegistry.Register` | src/tool/registry.rs:164-198 | replaces in place or appends, one version up, each name listed once |
| `McpSync.ToolRegistry.Remove` | src/tool/registry.rs:211-235 | forgets the name and its position, or changes nothing for an unknown one |
| `McpSync.McpToolProvider.BridgeToolList` | src/mcp.rs:1340-1373 | the loop with its seen-set computes the discovery |
| `McpSync.McpToolProvider.SetTimeout` | src/mcp.rs:764-770 | the timeout reaches every adapter already built and the ones to come |
| `McpSync.McpToolProvider.Refresh` | src/mcp.rs:807-819 | a listing replaces the snapshot, a failed one leaves it; the baseline stays |
| `McpSync.McpToolProvider.RegisterInto` | src/mcp.rs:856-862 | registers every tool of the snapshot and remembers it |
| `McpSync.McpToolProvider.RemoveDropped` | src/mcp.rs:931-944 | whatever order the baseline yields, exactly the unlisted names still held are removed and reported |
| `McpSync.McpToolProvider.LandDiscovered` | src/mcp.rs:945-967 | the loop's decisions, taken on the changing registry, are those of the registry it started from |
| `McpSync.McpToolProvider.Rebaseline` | src/mcp.rs:968-972 | the baseline becomes exactly the discovered tools |
| `McpSync.McpToolProvider.SyncInto` | src/mcp.rs:914-977 | a failed listing changes nothing; otherwise registry, snapshot and baseline are the specified ones, the effect on the entries and the report are as stated on names, descriptions and inputs, and the report is sorted |
| `Names.SortSorts` | src/mcp.rs:973-975 | the reported names are in ascending order and keep their multiplicities |
| `Names.LessEqMeaning` | src/mcp.rs:973-975 | the order is that of the first differing character, a prefix first |
| `Names.SortedListIsUnique` | src/mcp.rs:973-975 | an ascending list is determined by which names are in it |
| `McpSync.ReportIsDetermined` | src/mcp.rs:924-976 | a sync has one report, whatever order the baseline map yields its names in |
| `McpInterleaved.LeftAloneItEnds` | src/mcp.rs:931-967 | the sync's calls come to an end from wherever it is |
| `McpInterleaved.InterleavedSyncCovers` | src/mcp.rs:931-972 | with others registering and removing between any two of its calls, a sync that ends leaves nothing of ours but the discovered tools, and its baseline covers all of it |
| `McpInterleaved.BaselineCoversInterleaved` | src/mcp.rs:682-701 | so it is over any run whose syncs and registrations are interleaved with other writers in any way |
| `McpInterleaved.SyncLosesIff` | src/mcp.rs:931-967 | over a whole sync, whoever else writes and whenever, for every name, a call of it changes an entry that is not the remembered registration if and only if that entry landed after the sync's last check and that check was answered so that the sync acts on it, or the name is unknown to the baseline and the call registers it unasked |
| `McpInterleaved.UnknownNameIsOverwritten` | src/mcp.rs:962-965 | every sync that comes to its end has a call that puts the discovered tool under a listed name its baseline does not know, whatever stood or landed there before |
| `McpInterleaved.StrangerOutlivesTheSync` | src/mcp.rs:882-886 | an entry that is not the remembered registration when the sync begins, and that nobody else touches, outlives it unchanged |
| `McpInterleaved.RemovalLosesIff` | src/mcp.rs:931-944 | an entry that is not the remembered registration is removed if and only if it landed between the match and the remove |
| `McpInterleaved.RefreshLosesIff` | src/mcp.rs:946-956 | it is overwritten by a refresh if and only if it landed between the match and the register |
| `McpInterleaved.LateEntryIsOverwritten` | src/mcp.rs:957-965 | what lands under a known name after it was found absent is overwritten |
| `McpInterleaved.UninterruptedIsSync` | src/mcp.rs:914-977 | without others in between the calls add up to the sync as one step, in any order of the baseline |
| `Budget.SoftLineIsExact` | src/budget.rs:250-257 | for any u64 limit and numerator 1..10000 the u128 product never saturates, the soft line is the exact floor and never above the limit |
| `Budget.LinesAreTheLimits` | src/budget.rs:548-676 | both lines of all four dimensions on the configured limits, milliseconds against milliseconds |
| `Budget.CheckInRaw` | src/budget.rs:548-676 | the refusal, the warnings in order and the latches of a check, with their figures, from the counters and the limits |
| `Budget.RefusalNamesTheFirstCrossed` | src/budget.rs:548-676 | a check returns a crossing if and only if it is the first crossed dimension in the order tokens, turns, wall-clock, usd, with its figures |
| `Budget.WarnsForIff` | src/budget.rs:762-776 | a check warns for a dimension exactly when its soft line is reached and its latch is not set |
| `Budget.BeginRestarts` | src/budget.rs:474-478 | a run after begin is a run over a fresh gate |
| `Budget.CountersAreClampedSums` | src/budget.rs:485-526 | each counter is the unbounded sum clamped once to u64 |
| `Budget.LatchedIffSoftSeen` | src/budget.rs:735-776 | a latch is set exactly when some check of the run saw the soft line reached |
| `Budget.WarnsExactlyOnce` | src/budget.rs:735-776 | the check that warns is exactly the first one to see it |
| `Budget.RefusedOnlyAfterWarning` | src/budget.rs:548-676 | no dimension is at its hard line without having warned at this check or an earlier one |
| `Budget.RefusalIsSticky` | src/budget.rs:548-676 | once refused, every later check with the clock not run back refuses until begin |
| `Budget.UnpricedUsdLine` | src/budget.rs:644-673 | with nothing priced the usd line refuses if and only if it is zero and warns if and only if its fraction rounds to zero |
| `Budget.ProtocolStaysWithinLimits` | src/budget.rs:474-526 | under check, send, observe the completed turns never exceed the limit, and tokens and cost each exceed limit - 1 by at most what the last response added |
| `Budget.TakeSetsOneLatch` | src/budget.rs:726-758 | the four bits are independent |
| `Budget.BudgetGate.Begin` | src/budget.rs:474-478 | counters and latches start over |
| `Budget.BudgetGate.ObserveUsage` | src/budget.rs:485-492 | adds both figures, saturating |
| `Budget.BudgetGate.ObserveCost` | src/budget.rs:502-512 | adds the estimate only with a table, a report and a price |
| `Budget.BudgetGate.ObserveTurnEnd` | src/budget.rs:522-526 | counts one turn, saturating |
| `Budget.BudgetGate.Take` | src/budget.rs:748-753 | answers true exactly the first time and sets this latch alone |
| `Budget.BudgetGate.PreRequest` | src/budget.rs:548-676 | the four blocks refuse the first of the four limits reached, warn once for each limit whose share is reached, in order, and latch exactly those, with the spend and the limit as figures, on the gate's own counters and limits |
| `Duration.ParseDuration` | src/budget.rs:200-239 | accepts exactly the strings of digit-unit pairs whose unbounded total fits u64, and returns that total; one that does not fit is refused as too large, never as malformed |
| `Duration.DenotesOne` | src/budget.rs:200-239 | such a string has one total |
| `Duration.DenotesConcat` | src/budget.rs:200-239 | concatenating two of them adds their totals |
| `Duration.OnePair` | src/budget.rs:200-239 | a number and a unit stand for so many seconds, sixties or thirty-six hundreds, and no other unit stands for anything |
| `Duration.DecimalDigit` | src/budget.rs:223-228 | the number is read in base ten |
| `Messages.CoalesceAdjacentAssistants` | src/message.rs:158-185 | the loop that extends the last message in place computes the fold |
| `Messages.RunBecomesOne` | src/message.rs:158-185 | a run of assistant messages becomes one with every part in order and a separator exactly where two text parts meet, empty messages not counting |
| `Messages.TwoBecomeOne` | src/message.rs:158-185 | two assistant messages: the parts of both, with a blank line in between exactly where text meets text |
| `Messages.TextOfSnoc` | src/message.rs:277-301 | a message's text is its text parts one after the other, its calls are its tool calls |
| `Messages.CoalesceSplits` | src/message.rs:158-185 | a cut not between two assistant messages cuts the result as well |
| `Messages.NoAdjacentAssistants` | src/message.rs:109-119 | no two assistant messages are adjacent afterwards |
| `Messages.UnchangedIffAlternates` | src/message.rs:158-185 | the pass changes a history if and only if two assistant messages are adjacent |
| `Messages.CoalesceIsIdempotent` | src/message.rs:158-185 | running the pass twice is running it once |
| `Messages.CoalescePieces` | src/message.rs:158-185 | coalescing a concatenation is coalescing the pieces and joining the two ends that meet |
| `Messages.CoalesceIgnoresChunks` | src/message.rs:158-185 | however the history was chunked and coalesced before, the result is the same |
| `Messages.OthersAreKept` | src/message.rs:158-185 | every user and system message is kept as it was, in order |
| `Messages.CallsAreKept` | src/message.rs:291-301 | the tool calls of the history are the same before and after, in order |
| `Tokens.Count` | src/compact.rs:613-626 | saturating at every step gives the unbounded total clamped once, floored once |
| `Tokens.UnsaturatedIsExact` | src/compact.rs:613-626 | without saturation the count is floor(chars * den / num) plus the overhead per message |
| `Tokens.SaturatedIsLargest` | src/compact.rs:613-626 | where the exact figure reaches the top of u64 the count is the largest there is |
| `Tokens.CharsOfEveryPart` | src/compact.rs:311-335 | text and thinking count their characters, an image 256, a call its name and input, a plain result its text |
| `Tokens.CharsOfMultipart` | src/compact.rs:311-335 | a result in parts counts each of them, images 256 |
| `Tokens.CharsAdd` | src/compact.rs:311-335 | a list counts its messages and a message its parts one by one |
| `Tokens.CountSplits` | src/compact.rs:613-626 | counting together costs at most one token more than counting apart, and never less while nothing saturates |
| `Tokens.HeuristicIsARatio` | src/compact.rs:292-301 | ratio 4/1 with overhead 5 is the heuristic counter on every list that fits |
| `Tokens.AppendNeverLowers` | src/compact.rs:613-626 | appending messages never lowers either count, not even under saturation |
| `Tokens.RoleSharesAddUp` | src/compact.rs:1727-1745 | the user's share never exceeds the whole, so the telemetry's two shares add up; counted apart they lose at most one token |
| `Tokens.CoalesceChars` | src/message.rs:158-185 | coalescing takes one message a fold and adds exactly the two characters of a separator a seam |
| `Tokens.CoalesceNeverCountsMore` | src/engine/core/machine.rs:801-818 | coalescing never raises the heuristic, nor a ratio whose overhead outweighs a separator (exactly when a ratio is raised is `Adoption.RatioNeverRaisedIff`) |
| `Tokens.SeparatorsCanCost` | src/message.rs:173-177 | without overhead a separator costs its two characters |
| `Tokens.DecimalRatioIsExact` | src/compact.rs:527-545 | with a decimal point or without one, the ratio read is all the digits over the power of ten of the fraction, and reading fails only when one of the two does not fit u64 |
| `Tokens.ParseU64Iff` | src/compact.rs:527-545 | a number is read exactly from decimal digits that fit, with one plus sign or none |
| `Pins.LatestStatementStands` | src/compact.rs:1065-1072 | a statement replaces its id's entry in place or goes last; every other id keeps its message and its place |
| `Pins.SetPinIs` | src/compact.rs:1037-1074 | the whole answer: blank id, then blank text, then the measure of the other pins in order with the new message last; accepted, the user's message of exactly the text stands in the id's place or last |
| `Pins.RemovedIsForgotten` | src/compact.rs:1080-1082 | removing an id forgets that pin alone |
| `Pins.GuardMeasuresTheSet` | src/compact.rs:1051-1064 | the guard measures exactly the messages the registry would hold, in another order |
| `Pins.RegistryInvariant` | src/compact.rs:1037-1082 | over any run of statements and removals ids stay distinct, every pin says something, and under a fair counter the set measures at most the target |
| `Pins.HeuristicIsFair` | src/compact.rs:292-301 | the default counter ignores order and never grows by removal |
| `Pins.RatioIsFair` | src/compact.rs:613-626 | so does every ratio counter, saturation included |
| `Pins.AcceptedFitsIff` | src/compact.rs:1051-1072 | an accepted statement measures within the target under every counter if and only if its id is new or only the same message follows its entry |
| `Pins.RemovalFitsIff` | src/compact.rs:1080-1082 | a removal keeps within every target under every counter if and only if it removes nothing |
| `Pins.OrderCanSlipThrough` | src/compact.rs:1051-1072 | under an order-dependent counter an accepted set can measure over the target |
| `Pins.InsertAll` | src/compact.rs:1526-1534 | inserting one by one at growing offsets puts the whole list right behind a leading system message, or in front when there is none, and moves nothing else |
| `Pins.PrependPinned` | src/compact.rs:577-585 | all pins go, in statement order, right behind a leading system message, or in front when there is none; the messages keep their order |
| `Pins.BackstopPins` | src/compact.rs:1508-1536 | exactly the pins at the positions no message represents are put in, in statement order, right behind a leading system message or in front when there is none; the rest keeps its place, and their number is returned |
| `Pins.BackstopPlaces` | src/compact.rs:1508-1536 | those positions, strictly increasing, and where each of their pins stands |
| `Pins.BackstopCarriesAll` | src/compact.rs:1508-1536 | afterwards every pin has a message of its role with exactly its text |
| `Pins.UnchangedIffCarried` | src/compact.rs:1513-1523 | a list is left as it is if and only if it carries every pin |
| `Pins.BackstopOnce` | src/compact.rs:1508-1536 | a second backstop inserts nothing |
| `Pins.BackstopAfterPrepend` | src/compact.rs:577-585 | after a compactor prepended the pins the backstop inserts nothing |
| `Compaction.LinesAreOrdered` | src/compact.rs:1204-1259 | saturation lifts no line: target under its base, every line under the window, no compaction called for means under the window |
| `Compaction.CompactsExactlyAtTheLines` | src/compact.rs:1204-1259 | compaction is called for exactly when it is on and the count has come to the threshold's percentage of the window or to nineteen twentieths of it, the latter an emergency |
| `Compaction.TargetIsAShare` | src/compact.rs:1204-1259 | a total is within the target exactly when it is within the target's percentage of the window, or of the threshold |
| `Compaction.PassKeepsTheContract` | src/compact.rs:1427-1492 | for an arbitrary compactor every success on a nonempty history carries every pin and measures at most the window less the reserve |
| `Compaction.PassAnswers` | src/compact.rs:1462-1491 | refusal exactly when the compactor failed or the result and reserve do not fit, with the request's figures; compaction exactly when the count changed or the measure shrank, with the manager's figures and what was saved, zero where nothing was; the self-driven entry point agrees |
| `Compaction.PassIs` | src/compact.rs:1427-1492 | the whole answer of a pass from the compactor's messages with the missing pins in their places |
| `Compaction.EnsureFitsIs` | src/compact.rs:1289-1348 | the whole answer of the self-driven entry point, its lines in percent of the window |
| `Compaction.PinsAlwaysCarriedIff` | src/compact.rs:1438-1440 | every compactor's success carries every pin if and only if there is a history or there are no pins |
| `Compaction.NoActionCanRewrite` | src/compact.rs:1485-1487 | a same-length rewrite that does not shrink is handed back as no action |
| `NoAction.NoActionIsTheInputIff` | src/compact.rs:1485-1487 | by the default counter, no action is the input whatever the compactor did if and only if the input is empty, does not fit, or has too few messages or too little room for the pins |
| `NoAction.EnsureNoActionIsTheInputIff` | src/compact.rs:1289-1348 | the same for the self-driven entry point, where a history below the line joins those |
| `NoAction.PinnedInputComesBackIff` | src/compact.rs:1485-1487 | for an input that carries its pins, by every counter that does not see an empty thinking part, exactly when it is empty or does not fit (or is below the line) |
| `NoAction.CountersAreBlind` | src/compact.rs:311-335 | neither of the crate's counters sees an empty thinking part |
| `NoAction.CarryingNeeds` | src/compact.rs:1513-1523 | a list that carries pins has a message for each different one and at least their characters |
| `Compaction.LetThroughFitsIff` | src/compact.rs:1289-1348 | a history let through fits the window unless automatic compaction is off and it did not fit before |
| `Compaction.LetThroughCarriesPins` | src/compact.rs:1289-1348 | below the line the history is untouched, at or over it every pin is carried |
| `Compaction.CountersNeverRaised` | src/engine/core/machine.rs:801-818 | coalescing never raises the default counter, nor any ratio whose overhead outweighs a separator (both directions are `Adoption.RatioNeverRaisedIff`) |
| `Compaction.AdoptedHistoryKeepsTheContract` | src/engine/core/machine.rs:801-818 | under every counter the coalescing that follows keeps every user pin and leaves no adjacent assistants, and under one it never raises the result still fits (for any other counter it does not always: `Adoption.AdoptedAlwaysFitsIff`) |
| `Adoption.AdoptedAlwaysFitsIff` | src/engine/bare/compact.rs:351-361 | every rewrite the driver and the machine adopt fits, coalesced, the limit its pass met, if and only if coalescing never raises the counter; over every calibration, provider's report, overhead and reserve, for a counter that appending never lowers or whose counts stay below the calibration's saturation |
| `Adoption.AdoptedFitsIff` | src/engine/core/machine.rs:801-818 | by a ratio counter, what a pass answers, coalesced, fits the window less the reserve if and only if the output's unclamped figure, plus two scaled characters a text-to-text join, less one overhead a fold, stays under the next token over it |
| `Adoption.AdoptedCanOutgrow` | src/engine/core/machine.rs:801-818 | an emergency pass drops the user's turn between two assistant turns, fits to the token, lowers the figure and is adopted; the history adopted is two tokens over the window |
| `Adoption.FigureIs` | src/engine/bare.rs:1627-1635 | the driver's figure where nothing saturates: overhead included, calibrated in thousandths, from the last report on |
| `Adoption.AdoptedIsSmaller` | src/engine/bare/compact.rs:351-361 | through every calibration and report, nothing is adopted that did not shrink by the counter |
| `Adoption.FreshAdoptsIff` | src/engine/bare/compact.rs:351-361 | before any report exactly what shrank is adopted, by hand only what is no longer; no action never |
| `Adoption.RatioNeverRaisedIff` | src/compact.rs:613-626 | for every ratio counter, coalescing can raise a count if and only if a bounded search over the counter's three numbers finds folds whose gain crosses a token |
| `Adoption.CrossesIff` | src/compact.rs:613-626 | what the search looks for, in plain arithmetic: so many folds over so many characters gain a whole token, at a count still below the largest |
| `Adoption.MayRaiseIff` | src/compact.rs:613-626 | away from saturation that search is one comparison, two characters' scale against one overhead; it finds nothing where two messages' overhead alone saturates |
| `Adoption.RatioAdoptedAlwaysFitsIff` | src/engine/core/machine.rs:801-818 | by a ratio counter every rewrite adopted fits, coalesced, if and only if the search finds nothing |
| `Adoption.PresetsNeverRaised` | src/compact.rs:434-470 | under each of the four presets every adopted history fits |
| `Compaction.RegisteredPinsReachTheHistory` | src/compact.rs:1037-1082 | after any run of set_pin and remove_pin, under every counter, the message registered under an id is in every history that is let through and adopted |
| `Compaction.ContextManager.SetPin` | src/compact.rs:1037-1074 | rejections leave the registry unchanged; otherwise it is the specified one |
| `Compaction.ContextManager.RemovePin` | src/compact.rs:1080-1082 | retains exactly the other pins, in order |
| `Compaction.ContextManager.CompactWithReason` | src/compact.rs:1427-1492 | what follows the compactor's answer computes the specified pass |
| `Compaction.ContextManager.EnsureContextFits` | src/compact.rs:1289-1348 | the same for the self-driven entry point |
| `Ratio.NarrowingNeverSaturates` | src/numeric.rs:238-256 | the scaled operands always fit the narrow integer and the saturating add never saturates |
| `Ratio.UnitRatioIs` | src/numeric.rs:238-256 | both counts over the one scale, rounded down, but neither of them down to nothing |
| `Ratio.NarrowCountsAreExact` | src/numeric.rs:238-256 | counts that fit the narrow integer pass through unchanged |
| `Ratio.ZeroOnlyForZero` | src/numeric.rs:197-204 | the result is zero only for a zero numerator or denominator |
| `Ratio.SameSideOfOne` | src/numeric.rs:238-256 | the result is on the true ratio's side of one |
| `Ratio.FractionError` | src/numeric.rs:238-256 | for a fraction of one the error is at most 2 / RANGE |
| `Ratio.ReciprocalError` | src/numeric.rs:238-256 | above one the reciprocal's error is at most 2 / RANGE |
| `Ratio.ExactIff` | src/numeric.rs:205-256 | the quotient is preserved if and only if the numerator is zero, or both counts reach the scale and what the scale leaves of their greatest common divisor, times the larger count's lowest term, stays below the scale |
| `Ratio.GcdIsGreatest` | src/numeric.rs:205-256 | the divisor that condition speaks of divides both counts and is divided by every common divisor |
| `Ratio.SharedScaleIsNotExact` | src/numeric.rs:209-214 | in both families, two counts one apart whose quotient the shared scale changes |
| `Parser.ParsesExactlyTheGrammar` | examples/chat.rs:261-323 | the parser returns a tree if and only if the grammar derives the tokens with that tree |
| `Parser.Unambiguous` | examples/chat.rs:261-323 | no token string derives two trees: precedence and left association leave no choice |
| `Parser.ValueOf` | examples/chat.rs:261-323 | what each operation does to the values of its operands, in that order |
| `Parser.TwoNumbers` | examples/chat.rs:261-295 | the four signs between two numbers |
| `Parser.ThreeNumbers` | examples/chat.rs:261-323 | equal operators from left to right, the product before the difference, a number's sign before both |
| `Parser.ErrorTells` | examples/chat.rs:233-323 | each error from the tokens: an end where an operand was due, an opened parenthesis, a token that starts no operand, one left behind a whole expression |
| `Parser.PrintParses` | examples/chat.rs:261-323 | every tree printed with precedence-minimal parentheses parses back to itself |
| `Parser.PrintIsShortest` | examples/chat.rs:261-323 | no shorter token string parses to that tree |
| `Parser.ParseExpr` | examples/chat.rs:261-277 | the loop over + and - evaluates the tree read at the cursor, leaves the cursor behind it, and consumes a token |
| `Parser.ParseTerm` | examples/chat.rs:279-295 | the same for * and / |
| `Parser.ParseFactor` | examples/chat.rs:297-323 | the same for literals, parentheses and unary minus |
| `Parser.Evaluate` | examples/chat.rs:233-249 | a value exactly for the grammar's sentences, the value of their tree, whatever the five operations are |

## Left out

- Lock poisoning, tracing and metrics; every operation is the one that got its lock.
- Tokio: the queue is a bounded first-in-first-out list with a closed flag, the one-shot a cell; the
  order in which waiting senders get room is not modelled.
- Floating point: the soft fraction is its numerator over 10 000, the ratio its narrow integer pair, the
  calculator's operations are arbitrary functions, and how a float renders as a decimal is not modelled.
- The calculator's tokenizer and the formatting of its answer.
- The price table (a cost enters as a parameter), the manifest's limits and the host's configuration builders.
- MCP transports, reconnecting and calling tools; whether an output schema compiles is a flag of the
  listing, and JSON values are compared as texts.
- McpSync.McpToolProvider.SetTimeout: its sibling for the structured-content policy is a step of the runs
  but has no method of its own, because it is the same loop over another field.
- McpSync.McpToolProvider.SyncInto: the method is the sync nobody interrupts; what others write between its calls
  is in McpInterleaved, which works on values. A sync does not give the provider up before its end.
- Adoption.AdoptedAlwaysFitsIff: a counter that appending can lower and that counts past U64_MAX / 1000 is not
  decided, because there the driver's figure no longer tells its counts apart; neither of the crate's counters is one.
- The concrete compactors, and of the engine driver all but its verdict on a pass: hooks that veto one and a
  machine that is already terminal adopt nothing. A pass is proved for an arbitrary compactor outcome. The
  pins a compactor is shown may be older than those the backstop reads; only the latter matter here.
- Duration.ParseDuration: which of the messages a malformed string gets is not stated.
- Tokens.HeuristicIsARatio: the heuristic's sum is unbounded here; reaching the top of u64 takes more
  characters than an address space holds.
- Compaction.ContextManager.CompactWithReason: the compactor's call itself, an await, is not part of it; the
  method is what follows the answer, so the landing target and its override, which only the compactor sees,
  have no effect here.
- Telemetry beyond the role shares, the emergency reason's wording, and message serialization.
- AttachmentStore, CancelSignal, hooks, observers and provider clients, which would add only easy members.

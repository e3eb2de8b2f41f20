# Verified model of the agent's context engine and benchmark drivers

The project models, in Dafny, the parts of the repository where a mistake is hardest to see by reading:

- **The context compaction plugin** (`Transcript`, `TailTrim`, `Repair`, `Rounds`, `Escalation`, `Prune`, `PruneHeap`,
  `SummaryAnchor`, `SessionBreakers`, `CompactionTurn`, `CompactionPlugin`, `LadderTurn`, `ModelRuns`, `ManualRequests`,
  `Tier7Reach`, `Tier7Sessions`). Before every model call it rewrites the conversation: a prune of old tool payloads in
  place, a tail cut that must not separate a tool response from its call, an optional summary in front, and an
  escalation ladder (collapse rounds, compact, truncate) when the result is still too large. Counters and a summary
  anchor are carried across calls in the session.
- **The tau-bench driver** (`WriteGuard`, `Episode`): tool calls behind an append-only write ledger, a duplicate-write
  guard and one grounding prompt per write, and the episode loop around them.
- **Covering and scoring** (`GreedyCover`, `PairwiseSlots`, `MatchedCredit`, `PassHatK`).
- **State shared between controls, and caches** (`ScopedState`, `EditRetry`, `ResumableRun`, `SidecarCache`,
  `CacheMarkers`, `PartSanitizer`).

`dafny verify dfyconfig.toml` checks everything.

## How it is laid out

`Basics` holds what several modules share. A content is a role and a sequence of parts: text, a call, a response, or
anything else. Code that loops or updates fields is a method or a class, and its contract equates its result or new
state with a function; the lemmas about that function say what it means. Token estimators are arbitrary non-negative
functions. What lies outside the plugin or the driver (the model, the summarizer, the strategies' answers where the
theorem quantifies over them, the environment, the concurrent writer) is a parameter, so every theorem holds for all
of it. Where a function decides something (which results are cleared, where a round opens, which call is turned away),
a lemma says what it decides on the inputs, without naming the function.

Three shapes of a history matter. *Orphan-free*: every response has its call somewhere in the list. *Chained*: every
response is reached from its call through response-bearing contents only. *Unmixed*: no content both calls and
answers. A call content followed by the contents of its responses, the shape the model loop writes, has all three.
`TrimIsSafeIffChained`, `RepairIsIdentityIff` and `EverySelectionCleanIff` show how far the code depends on them.

`CompactionPlugin` is one model call as a whole: which prefix is dropped, whether tier 7 is reached, what is sent and
what is stored are all computed from the contents, the session and the outside answers. `ModelRuns` takes lists of
such calls, with any contents at each, as sessions, and `ManualRequests` adds the one-shot requests between them: the
session that its moments leave one by one is the session of its calls (`ManualRequests.SessionOfMoments`).
`LadderTurn` follows the user's last turn through one call; the turn the user has just made always gets through
(`LadderTurn.FreshTurnIsSent`), an earlier one may not (`LadderTurn.SentActiveTask`).

## Where the code and its own description part ways

The model follows the code. These points are proved:

- The prefix cut is described as never orphaning a response because a call precedes its response. That is not enough:
  the cut is safe at every tail size exactly for chained histories (`TailTrim.TrimIsSafeIffChained`), and a user turn
  between call and response is enough to break it (`TailTrim.InterruptedToolCycleIsOrphaned`).
- The single repair pass is described as leaving every kept response with its call. It does so when every content that
  makes a call has its own responses answered (`Repair.RepairIsGreatest`), and can fail otherwise
  (`Repair.MixedContentDefeatsOnePass`).
- The deterministic truncation is described as a guaranteed reduction. The continuity marker is not charged to the
  budget, so it can make a request larger (`Escalation.TruncationCanGrow`). It never does so to a heavy enough request
  (`Escalation.HeavyRequestNeverGrows`); below that, the contents it leaves out decide
  (`Escalation.TruncationReducesIff`).
- Reactive compaction keeps the last message as the current request. When that message is a pending tool result, the
  repair that follows removes it and only the summary is left (`Rounds.CompactLosesPendingResultIff`).
- The stored summary anchor is capped, but an anchor found in the dropped prefix is used in full
  (`SummaryAnchor.SecondTrimFindsFirstSummary`, `ModelRuns.NextSummarizerGetsWholeSummary`).
- The tier-7 counter is commented as counting consecutive failures; it is cumulative
  (`SessionBreakers.ProactiveCounterIsCumulative`). A cap of zero keeps the summary breaker closed for good, and switches
  tier 7 off (`SessionBreakers.CapZero`).
- The two breakers are described as independent. Each stored value is indeed read and written by its own side only
  (`SessionBreakers.AfterReads`, `ModelRuns.SummarySideReadsItsOwn`), but the two sides meet elsewhere. A summary weighs
  at the gate, so it can carry a call to tier 7 and have a failure counted there (`Tier7Reach.SummaryMovesTier7`); it
  cannot when the cut drops nothing, and only then (`Tier7Reach.SummaryIrrelevantIff`). Over whole sessions the
  tier-7 history is free of the summaries exactly when no call that meets the closed breaker has its weight carried
  across the critical budget, or its tier-7 call turned, by a summary (`Tier7Sessions.Tier7IgnoresSummariesIff`). And
  what tier 7 sends decides, through the stored prompt size, whether the next call drops a prefix
  (`Tier7Reach.Tier7MovesSummaries`); without real counts it has no such influence
  (`ModelRuns.Tier7NeverAffectsSummaries`).
- The retry controller gives up on the attempt that reaches the maximum, so at most `max - 1` guidances are handed out
  (`EditRetry.GuidanceIsBounded`).
- Calls without an invocation id are counted in one scope that no end of run without an id sweeps
  (`EditRetry.UnidentifiedRunsAccumulate`).
- The sanitizer's description drops unsigned thinking parts while thinking is on; the code keeps those with text
  (`PartSanitizer.ThinkingTextSurvives`). Dropping a call that carries reasoning orphans its plain response
  (`PartSanitizer.SanitizedIsPairedIff`).
- The `skipped` count of the multi-bug runner is not preserved by a resume (`ResumableRun.ResumeChangesSkipped`,
  `ResumableRun.SkippedAgreesIff`).
- Multi-bug precision depends on the order of predictions (`MatchedCredit.PrecisionDependsOnOrder`), though only where
  predictions with different evidence tie (`MatchedCredit.PrecisionIgnoresOrderWithoutTies`).

## Model

| member | source | states |
|---|---|---|
| Transcript.GenuineIff | magi_agent/adk_bridge/context_compaction.py:1411-1441 | a genuine user turn is a content of user role without call or response that carries a text |
| TailTrim.AdjustSplitToAvoidOrphanResponse | magi_agent/adk_bridge/context_compaction.py:1809-1840 | the backward walk lands on the nearest position at or below the requested split that does not start on a response, or on the head of the list; every position it skipped carries a response |
| TailTrim.LastRealUserTextIndex | magi_agent/adk_bridge/context_compaction.py:1411-1441 | the last user-role content with non-empty text and no tool part; none when there is none |
| TailTrim.ProtectedTextContents | magi_agent/adk_bridge/context_compaction.py:1586-1626 | the loop over contents and parts makes the preserved texts of the results of protected tools; what such a text holds is in TailTrim.PreservedTextsAreResults |
| TailTrim.ProtectedTextsAre | magi_agent/adk_bridge/context_compaction.py:1586-1626 | those texts are exactly the ones of the protected results in the dropped prefix: none missed, none invented |
| TailTrim.TrimKeepsPairs | magi_agent/adk_bridge/context_compaction.py:1809-1840 | in every chained history, at every tail size, with or without a summary, no kept response lacks its call |
| TailTrim.TrimIsSafeIffChained | magi_agent/adk_bridge/context_compaction.py:1815-1836 | the exact condition for the safety claim of the prefix cut: the pure drop keeps every response paired at all tail sizes if and only if every response is reached from its call through response-bearing contents only |
| TailTrim.InterruptedToolCycleIsOrphaned | magi_agent/adk_bridge/context_compaction.py:1815-1836 | a paired history with a user turn between call and response, where the claim fails: the kept tail starts with the user turn and the response is orphaned |
| TailTrim.TrimKeepsActiveTask | magi_agent/adk_bridge/context_compaction.py:872-901 | on both paths the last genuine user text of the output is the one of the input whenever the input has one |
| TailTrim.ProtectedResultsSurvive | magi_agent/adk_bridge/context_compaction.py:1129-1134 | after a summary trim every result of the two protected tools is in the output as it was, or the output has a user text that names the tool and goes on, after its first line, with the payload, cut at 24,000 characters |
| TailTrim.TrimKeepsTail | magi_agent/adk_bridge/context_compaction.py:830-832 | the whole requested tail is kept, and a pure drop never lengthens the history |
| TailTrim.TrimIsIdempotent | magi_agent/adk_bridge/context_compaction.py:830-901 | trimming a trimmed history changes nothing, with or without a pinned turn and with any widening |
| TailTrim.PreservedTextsAreResults | magi_agent/adk_bridge/context_compaction.py:1586-1626 | each preserved text is a user text that carries a result of a protected tool of the dropped prefix: its name in the first line, its payload after it |
| TailTrim.SummaryComesFirst | magi_agent/adk_bridge/context_compaction.py:1112-1134 | the head opens with a user text whose body is the summary, before the preserved texts |
| TailTrim.ProtectedTextsInOrder | magi_agent/adk_bridge/context_compaction.py:1602-1625 | the preserved texts come in the order of the results, over contents and over the parts of each |
| Repair.FunctionCallKeys | magi_agent/adk_bridge/context_compaction.py:1970-1989 | the non-empty call ids and call names of one content |
| Repair.CollectCalls | magi_agent/adk_bridge/context_compaction.py:2003-2007 | a response finds its key among the collected call ids and names exactly when some content of the list holds its call |
| Repair.RepairOrphansNonprefix | magi_agent/adk_bridge/context_compaction.py:1992-2030 | the single pass, with its early exit per content, keeps exactly the contents none of whose responses lacks a call in the list |
| Repair.SurvivingContents | magi_agent/adk_bridge/context_compaction.py:2008-2028 | membership form: a content is in the output exactly when it is in the input and each of its responses is answered in the input |
| Repair.RepairKeepsOrphanFreeSublists | magi_agent/adk_bridge/context_compaction.py:1992-2030 | every orphan-free sublist of any input is a sublist of the output, so the pass never drops too much |
| Repair.RepairIsIdentityIff | magi_agent/adk_bridge/context_compaction.py:1992-2030 | the pass changes nothing exactly on orphan-free lists |
| Repair.MsgsToContents | magi_agent/adk_bridge/context_compaction.py:2033-2059 | messages with a valid original index give back that content, all others a fresh user text, and the repair runs on the result |
| Repair.RebuiltContents | magi_agent/adk_bridge/context_compaction.py:2033-2059 | whatever messages a strategy hands back, each rebuilt content is an original or a user text, and the shape assumptions on the original carry over |
| Repair.AdapterRoundTripIff | magi_agent/adk_bridge/context_compaction.py:1951-2059 | contents to messages and back is the identity exactly on orphan-free histories |
| Repair.RepairIsGreatest | magi_agent/adk_bridge/context_compaction.py:1992-2030 | when every content that makes a call has its own responses answered (contents that never both call and answer qualify), one pass closes the list and the output is the greatest orphan-free sublist of the input |
| Repair.MixedContentDefeatsOnePass | magi_agent/adk_bridge/context_compaction.py:1992-2030 | a list outside that condition which the pass leaves with an orphan: a content that answers a lost call and makes another one, and the response to its own call |
| Repair.RepairGoesByIdThenName | magi_agent/adk_bridge/context_compaction.py:1992-2030 | a content goes exactly when one of its responses has an id that no call of the list has, or has no id and a name that no call has |
| Rounds.PartitionIntoRounds | magi_agent/runtime/error_recovery/strategies/collapse_drain.py:82-94 | the loop computes the partition defined by recursion |
| Rounds.PartitionIsRounds | magi_agent/runtime/error_recovery/strategies/collapse_drain.py:82-94 | the rounds concatenate to the messages, none is empty, and a user message opens each round but the first and occurs nowhere inside a round |
| Rounds.DropCount | magi_agent/runtime/error_recovery/strategies/collapse_drain.py:60-61 | the number of rounds dropped is the configured fraction of all rounds rounded up, at least one and never the first or the last round |
| Rounds.CollapseDrain | magi_agent/runtime/error_recovery/strategies/collapse_drain.py:38-79 | drops the oldest middle rounds and declines when there is no middle |
| Rounds.CompactLosesPendingResultIff | magi_agent/runtime/error_recovery/strategies/reactive_compact.py:67-111 | after compaction and repair the last content is gone exactly when it answers a call it does not make itself; otherwise summary and last content remain |
| Rounds.ClosedSplit | magi_agent/runtime/error_recovery/strategies/collapse_drain.py:82-94 | cutting a history with no open tool cycle where a round starts gives two such histories |
| Rounds.EverySelectionCleanIff | magi_agent/adk_bridge/context_compaction.py:1951-2059 | the exact condition: every selection of whole rounds, converted back, is free of orphan responses and dangling calls if and only if each response shares a round with its call and each call with its response |
| Rounds.SelectionNeedsNoRepair | magi_agent/adk_bridge/context_compaction.py:1992-2059 | on such a history the repair after any selection of whole rounds has nothing to drop |
| Rounds.ClosedHistoryHasWholeRounds | magi_agent/runtime/error_recovery/strategies/collapse_drain.py:82-94 | a history without open tool cycles is such a history: the rounds never cut a cycle |
| Rounds.CollapseDrainIsClean | magi_agent/runtime/error_recovery/strategies/collapse_drain.py:38-79 | on a history with whole rounds the strategy keeps the first and last round, gets strictly shorter, and leaves neither an orphan response nor a dangling call |
| Rounds.RoundsOpenAtUserTurns | magi_agent/adk_bridge/context_compaction.py:1903-1920 | on contents: every round but the first opens with a content of user role without call or response, and none stands inside a round |
| Rounds.RoundsAreCounted | magi_agent/runtime/error_recovery/strategies/collapse_drain.py:82-94 | there is one round for the first content and one for each later user turn |
| Rounds.CompactHeadSays | magi_agent/runtime/error_recovery/strategies/reactive_compact.py:95-101 | the compacted history opens with a user turn that says the summary after its heading |
| Escalation.DeterministicTruncate | magi_agent/adk_bridge/context_compaction.py:2062-2119 | the two loops compute the first round, the budgeted tail, the marker decision and the final repair |
| Escalation.TruncationNeverLengthens | magi_agent/adk_bridge/context_compaction.py:2062-2119 | the fail-safe never returns more contents than it was given |
| Escalation.KeptPartsBound | magi_agent/adk_bridge/context_compaction.py:2090-2099 | first round and kept tail use at most the budget, or what the first round and the last content alone need |
| Escalation.KeptPartsAreMost | magi_agent/adk_bridge/context_compaction.py:2090-2099 | the kept tail is maximal: one content more would pass the budget |
| Escalation.TruncationBound | magi_agent/adk_bridge/context_compaction.py:2062-2119 | the whole result is within the budget or that least amount, plus the marker only where it was put in |
| Escalation.TruncationOrphanFreeIff | magi_agent/adk_bridge/context_compaction.py:2062-2119 | the result is orphan-free except when a lone orphan response was handed in |
| Escalation.MarkerNeverBesideUser | magi_agent/adk_bridge/context_compaction.py:2100-2117 | an inserted marker survives the repair strictly inside the result and neither neighbour is on the user role |
| Escalation.TruncationCanGrow | magi_agent/adk_bridge/context_compaction.py:2065-2117 | a concrete four-turn history that the fail-safe makes larger |
| Escalation.LadderIsOrphanFree | magi_agent/adk_bridge/context_compaction.py:512-588 | whatever the two strategies answer, the request handed over has no orphan, unless a lone orphan came in |
| Escalation.LadderBound | magi_agent/adk_bridge/context_compaction.py:512-588 | whatever the two strategies answer, the result is within the budget or is the truncation of what they left, within its own bound |
| Escalation.TruncationConservesTokens | magi_agent/adk_bridge/context_compaction.py:2062-2117 | tokens kept and tokens dropped, by the cut and by the repair, add up to the tokens given plus the marker if it was put in |
| Escalation.HeavyRequestNeverGrows | magi_agent/adk_bridge/context_compaction.py:2065-2117 | the fail-safe described as a guaranteed reduction never grows a request that weighs at least the larger of the budget and what it must keep, plus the marker |
| Escalation.TruncationReducesIff | magi_agent/adk_bridge/context_compaction.py:2065-2117 | for chained histories whose kept tail does not open on a response: it does not grow the request if and only if no marker is added or the slice between first round and kept tail weighs at least the marker |
| Escalation.ProactiveRecover | magi_agent/adk_bridge/context_compaction.py:512-588 | the body with the real strategies: tier 6, then tier 7 unless the breaker is open, then the fail-safe, keeping partial reductions; and exactly when a raise of the summarizer is reported |
| Escalation.FirstRoundEndsAtUserTurn | magi_agent/adk_bridge/context_compaction.py:2078-2087 | the first round ends before the first user turn behind the first content, or with the history |
| Escalation.MarkerInIff | magi_agent/adk_bridge/context_compaction.py:2100-2117 | the marker is in the result if and only if contents were dropped between first round and kept tail and neither side of the gap is on the user role |
| Escalation.LadderTiersIff | magi_agent/adk_bridge/context_compaction.py:512-588 | tier 6 settles the call if and only if its answer fits the budget, then tier 7 if its does, and otherwise the fail-safe, each on what the tiers before left |
| Prune.BoundaryIsLatestEnough | magi_agent/adk_bridge/context_compaction.py:1197-1223 | the boundary protects the counted tail and just enough payload tokens before it: at least the configured amount or everything, and without the oldest protected content less than that |
| Prune.PruneFreesExactly | magi_agent/adk_bridge/context_compaction.py:1138-1195 | all or nothing: nothing changes, or the payload total drops by exactly the freed sum, which is at least the minimum |
| Prune.PruneFrame | magi_agent/adk_bridge/context_compaction.py:1138-1195 | nothing at or above the boundary and no result of a protected tool changes; a part either stays or becomes the placeholder under the same id and name |
| Prune.PruneKeepsChains | magi_agent/adk_bridge/context_compaction.py:1147-1149 | clearing payloads keeps every call/response chain |
| Prune.BoundaryAfterPrune | magi_agent/adk_bridge/context_compaction.py:1197-1223 | a prune does not move the boundary |
| Prune.BoundaryAfterAppend | magi_agent/adk_bridge/context_compaction.py:1197-1223 | appending a content never moves the boundary back |
| Prune.PruneIsIdempotent | magi_agent/adk_bridge/context_compaction.py:1138-1195 | pruning twice is pruning once |
| Prune.BoundaryNeverMovesBack | magi_agent/adk_bridge/context_compaction.py:1138-1223 | over any run of arrivals and prunes the boundary never moves back |
| Prune.ProtectedRegionIsVerbatim | magi_agent/adk_bridge/context_compaction.py:1138-1223 | over any run every content is as it arrived or cleared once, and everything in the protected region is exactly as it arrived |
| Prune.PruneSweepsOrKeeps | magi_agent/adk_bridge/context_compaction.py:1138-1195 | the prune either puts the placeholder for each result of an unprotected tool below the boundary that measures at least 1,000 tokens and more than the placeholder, if that lowers the payload total by at least the minimum, or does nothing |
| Prune.SmallPayloadsAreKept | magi_agent/adk_bridge/context_compaction.py:1174-1183 | over every run of arrivals and prunes no call, no text, no protected result and no payload under 1,000 tokens is ever lost |
| Prune.PayloadsCount | magi_agent/adk_bridge/context_compaction.py:1781-1795 | what the protected budget is measured in: responses count what the measure says of their payload, everything else nothing |
| Prune.SweptExists | magi_agent/adk_bridge/context_compaction.py:1138-1195 | there is such a sweep of any history |
| PruneHeap.PruneProtectedBoundary | magi_agent/adk_bridge/context_compaction.py:1197-1223 | the walk over the response objects finds the boundary of what the objects say |
| PruneHeap.FindClearable | magi_agent/adk_bridge/context_compaction.py:1162-1184 | the first pass changes nothing, collects exactly the objects below the boundary of unprotected tools whose payload measures at least 1,000 tokens and more than the placeholder, and sums what clearing them frees |
| PruneHeap.CommitClears | magi_agent/adk_bridge/context_compaction.py:1190-1191 | exactly the collected objects are overwritten; the contents then say the cleared prefix if and only if no cleared object is also held at or above the boundary |
| PruneHeap.MaybePruneToolOutputs | magi_agent/adk_bridge/context_compaction.py:1138-1195 | for any sharing of objects: the in-place prune overwrites just the large payloads of unprotected tools held below the boundary, and it refines the prune on values if and only if no such object is also held in the protected region |
| SummaryAnchor.AnchorTextFromContent | magi_agent/adk_bridge/context_compaction.py:1371-1391 | decided by the first part with text: the text after the marker, or no anchor |
| SummaryAnchor.FindAnchor | magi_agent/adk_bridge/context_compaction.py:1394-1408 | the last anchor found among the dropped contents |
| SummaryAnchor.AnchorRoundTrip | magi_agent/adk_bridge/context_compaction.py:1105-1134 | a head made from a summary, with anything before it and no anchor after it, gives back exactly that summary |
| SummaryAnchor.SecondTrimFindsFirstSummary | magi_agent/adk_bridge/context_compaction.py:1105-1134 | across two trims, the second dropping the summary and any part of what follows, the summarizer is handed the first summary in full, which is not what the session stores of it exactly when it is longer than the cap |
| SummaryAnchor.AnchorOfPartsIff | magi_agent/adk_bridge/context_compaction.py:1371-1391 | a content is an anchor if and only if the first text it carries is the marker with a body behind it |
| SessionBreakers.SummaryStateTracksAttempts | magi_agent/adk_bridge/context_compaction.py:1095-1128 | over every run the stored counter is the number of failed attempts since the last success, stays within a positive cap, and the stored anchor is the capped prefix of the latest successful summary |
| SessionBreakers.OpenBreakerStaysOpen | magi_agent/adk_bridge/context_compaction.py:1095-1099 | once the counter is at a positive cap no later call reaches the summarizer |
| SessionBreakers.ProactiveCounterIsCumulative | magi_agent/adk_bridge/context_compaction.py:551-581 | over every run the tier-7 counter is the number of raises so far, successes never lower it, and it never passes the cap |
| SessionBreakers.DisabledPluginWritesNothing | magi_agent/adk_bridge/context_compaction.py:357-430 | with both features off no run ever writes the session |
| SessionBreakers.AfterReads | magi_agent/adk_bridge/context_compaction.py:393-430 | each stored value is written by its own mechanism only: failures by a summary attempt, the anchor by a successful one, tier-7 failures by a raise, the prompt size by the report |
| SessionBreakers.CapZero | magi_agent/adk_bridge/context_compaction.py:1095-1099 | with a cap of zero, over every run each drop is summarized whatever failed before, and tier 7 is never called |
| SessionBreakers.ReadsAreProper | magi_agent/adk_bridge/context_compaction.py:1285-1344 | an empty stored anchor and a negative stored prompt size read as none |
| CompactionTurn.ManualSignal.Consume | magi_agent/runtime/manual_compaction_context.py:62-73 | reads the pending request and clears it |
| CompactionTurn.RealDecisionIsMonotone | magi_agent/adk_bridge/context_compaction.py:762-785 | more real tokens never turn a trim off and a larger window never turns one on |
| CompactionTurn.TrimStepIsSafe | magi_agent/adk_bridge/context_compaction.py:614-743 | from a chained history without mixed contents the trim step leaves no orphan and no mixed content |
| CompactionTurn.EveryRequestIsOrphanFree | magi_agent/adk_bridge/context_compaction.py:466-743 | end to end: under every setting, decision, summary and pair of strategy answers the request sent has no orphaned response |
| CompactionTurn.EarlierSignalDecidesAlone | magi_agent/adk_bridge/context_compaction.py:643-693 | under a manual request neither the real count nor the estimate has any influence on the outcome, and under a usable real count the estimate has none |
| CompactionTurn.RealCountMovesDropIff | magi_agent/adk_bridge/context_compaction.py:762-785 | two real counts lead to different drops if and only if they lie on different sides of the threshold, the call is long enough and not forced, and the cut drops something |
| CompactionTurn.TrimStepKeepsActiveTask | magi_agent/adk_bridge/context_compaction.py:614-743 | the last genuine user text survives the trim step whatever is decided |
| CompactionTurn.RealDecisionIff | magi_agent/adk_bridge/context_compaction.py:762-785 | when the real count decides, and that it calls for a trim exactly when it reaches the share of the window left after the reserve, rounded down |
| CompactionTurn.BoundaryIff | magi_agent/adk_bridge/context_compaction.py:709-728 | the boundary is breached by too many contents or by an estimate above the threshold that counts |
| CompactionTurn.GateIff | magi_agent/adk_bridge/context_compaction.py:497-505 | the gate opens exactly above the critical share of the window, if that is at least one token |
| CompactionPlugin.Plugin.ReadSession | magi_agent/adk_bridge/context_compaction.py:338-387 | what a call reads from the session, and that the produced values are reset |
| CompactionPlugin.Plugin.BuildSummaryHead | magi_agent/adk_bridge/context_compaction.py:1076-1136 | whether the summarizer is called and with which anchor, the head made of its answer and the protected results, and what is recorded |
| CompactionPlugin.Plugin.ApplyTailTrim | magi_agent/adk_bridge/context_compaction.py:787-912 | the request becomes head, pinned user turn and kept tail, or is left alone when the widened split is zero |
| CompactionPlugin.Plugin.TrimRequest | magi_agent/adk_bridge/context_compaction.py:614-743 | the decision ladder on the shared request: too short, manual, real count, boundary; with the summary attempt it makes and when the manual request is used up |
| CompactionPlugin.Plugin.MaybeProactiveRecover | magi_agent/adk_bridge/context_compaction.py:485-588 | the gate on the trimmed contents and the ladder behind it, with the failure it reports |
| CompactionPlugin.Plugin.BeforeModel | magi_agent/adk_bridge/context_compaction.py:315-430 | one model call on request, session and manual signal: the request sent and the session left are functions of the contents, the session and the outside answers alone; what is dropped, whether tier 7 is reached and whether it raises are computed, not given |
| CompactionPlugin.Plugin.AfterModel | magi_agent/adk_bridge/context_compaction.py:432-464 | the reported prompt size is stored when real counts are on and one was reported |
| LadderTurn.DrainIsCut | magi_agent/runtime/error_recovery/strategies/collapse_drain.py:58-72 | tier 6 takes one slice out of the middle of the history, between the end of the first round and the start of a later one, and repairs the rest |
| LadderTurn.CollapseActiveTask | magi_agent/runtime/error_recovery/strategies/collapse_drain.py:58-72 | after tier 6 the last user turn is the one before, unless it stood in that slice, and then the last one of the first round |
| LadderTurn.CompactActiveTask | magi_agent/runtime/error_recovery/strategies/reactive_compact.py:82-101 | after tier 7 the last user turn is the last content if that is one, and otherwise the summary |
| LadderTurn.TruncationKeepsActiveTask | magi_agent/adk_bridge/context_compaction.py:2078-2117 | what the last user turn is after the fail-safe, by where it stood: kept in the tail, kept in an unmarked first round, displaced by the marker, or lost to the first round |
| LadderTurn.SentActiveTask | magi_agent/adk_bridge/context_compaction.py:466-588 | the last user turn of what a call sends, in every case: the one of the given contents when the gate stays shut, and otherwise what the tier that settles the call makes of it |
| LadderTurn.FreshTurnIsSent | magi_agent/adk_bridge/context_compaction.py:315-588 | a user turn that ends the given contents ends what is sent, whatever is configured, stored, estimated and answered |
| LadderTurn.DrainTakesOldestTurns | magi_agent/runtime/error_recovery/strategies/collapse_drain.py:38-79 | tier 6 acts if and only if there are two user turns behind the first content, and then takes out whole stretches from user turn to user turn, the oldest first: a fifth of all rounds, rounded up, never the last |
| LadderTurn.RunningTurnStaysWhole | magi_agent/adk_bridge/context_compaction.py:2062-2119 | a history of one running turn, however many tool cycles it has, is left alone by tier 6 and given whole to the repair by the fail-safe |
| ModelRuns.BreakersOverSessions | magi_agent/adk_bridge/context_compaction.py:315-430 | over every session of such calls: the summary counter is the failures since the last success and within a positive cap, the anchor is the capped latest summary, the tier-7 counter is the raises so far and within the cap |
| ModelRuns.SummaryBreakerStaysOpen | magi_agent/adk_bridge/context_compaction.py:1095-1099 | once the summary breaker is open no later call of the session reaches the summarizer |
| ModelRuns.EveryCallIsOrphanFree | magi_agent/adk_bridge/context_compaction.py:315-588 | every call of every session on a chained unmixed history sends an orphan-free request |
| ModelRuns.SummarySideReadsItsOwn | magi_agent/adk_bridge/context_compaction.py:357-374 | the drop, the anchor, the attempt and the trimmed contents of a call depend on the summary keys and the decision of the real count only, not on the tier-7 counter or summarizer |
| ModelRuns.Tier7ReachesSummariesByCountOnly | magi_agent/adk_bridge/context_compaction.py:315-464 | two sessions that differ in tier 7 make the same summary attempts and end with the same counter and anchor as long as their stored prompt sizes call for the same decisions |
| ModelRuns.Tier7NeverAffectsSummaries | magi_agent/adk_bridge/context_compaction.py:315-464 | without real counts tier 7 does not reach the summaries of a session at all |
| ModelRuns.NextSummarizerGetsWholeSummary | magi_agent/adk_bridge/context_compaction.py:1105-1134 | the same of sessions: after any call that made a summary, the summarizer of a later call that drops it is called with it in full, other than what is stored exactly when it is longer than the cap |
| ModelRuns.SummarizerGetsStoredSummary | magi_agent/adk_bridge/context_compaction.py:1102-1112 | over every session: a summarizer called for a prefix without a marker is handed the latest successful summary of the session up to 24,000 characters, and nothing when there was none or anchoring is off |
| ModelRuns.NextSummarizerGetsStoredSummary | magi_agent/adk_bridge/context_compaction.py:1102-1112 | over two calls, whatever the session held before: the summary one makes is what the next one that drops a prefix without a marker is handed |
| ModelRuns.CallDropsIff | magi_agent/adk_bridge/context_compaction.py:614-743 | exactly when a call drops a prefix: it is longer than the tail, the cut is not at the head, and a manual request is pending, or the prompt size in the session decides for a trim, or none decides and the boundary is breached |
| ModelRuns.DropIsReplaced | magi_agent/adk_bridge/context_compaction.py:830-901 | what stands in the place of a dropped prefix: the summary of that prefix, if one was made, with the preserved results, and the last user turn if it stood there; the rest follows unchanged |
| ModelRuns.ResultsAtTheGate | magi_agent/adk_bridge/context_compaction.py:648-674 | with the prune off every tool result is sent to the gate as it came in; with it on, in a call longer than the tail, each is as the sweep below the boundary leaves it, if that frees the minimum |
| ModelRuns.CompactionsAreLogged | magi_agent/adk_bridge/context_compaction.py:512-588 | the tier-7 calls the counter is about are those of the history, each made with the breaker closed on contents that reach tier 7 |
| ManualRequests.Live | magi_agent/adk_bridge/context_compaction.py:315-464 | one moment of a run through the plugin: a request raises the flag; a model call finds the flag, rewrites the request, leaves the flag up only when it was not forced to trim, and leaves the session of its turn |
| ManualRequests.ForcedTrimsAreRequested | magi_agent/runtime/manual_compaction_context.py:51-73 | over every run of requests and model calls, whatever their contents, there are at most as many forced trims as requests, one fewer while a request is pending |
| ManualRequests.RequestWaitsForALongCall | magi_agent/adk_bridge/context_compaction.py:623-676 | a request is not used up by calls too short to compact; the first long call, whatever the session holds by then and whatever the estimates, drops the prefix before its cut, and the request is spent |
| Tier7Reach.SummaryOpensGateIff | magi_agent/adk_bridge/context_compaction.py:485-508 | a summary never closes the gate, and opens it if and only if the trimmed contents fit the budget and no longer do with the summary head in front |
| Tier7Reach.SummaryMovesTier7Iff | magi_agent/adk_bridge/context_compaction.py:485-551 | for a given estimator and budget the summary decides over tier 7 if and only if the budget lies between the lightest forms of the contents with and without it |
| Tier7Reach.SummaryIrrelevantIff | magi_agent/adk_bridge/context_compaction.py:485-551 | no summary, estimator and budget can make a difference to whether a call reaches tier 7 if and only if its cut drops nothing |
| Tier7Reach.SummaryMovesTier7 | magi_agent/adk_bridge/context_compaction.py:485-581 | two calls that differ only in the answer of the summarizer, of which one counts a tier-7 failure; the settings are ones the constructor takes, the window is the default one, the estimate the character heuristic |
| Tier7Reach.Tier7MovesSummaries | magi_agent/adk_bridge/context_compaction.py:432-464 | two sessions that differ only in whether a tier-7 summarizer raises, of which one trims and summarizes at the next call, through the stored prompt size |
| Tier7Sessions.SettledSessionsAgree | magi_agent/adk_bridge/context_compaction.py:485-588 | two sessions that agree in contents, requests, estimator, window and tier-7 summarizer, and whose prompt sizes call for the same decisions, make the same tier-7 calls with the same ends and keep the same counter, whatever their summarizers answer, when each call met with the breaker closed drops nothing or is such that no summary moves its weight across the budget or its tier-7 call from raising to not raising |
| Tier7Sessions.Tier7IgnoresSummariesIff | magi_agent/adk_bridge/context_compaction.py:485-588 | that condition on the calls is exact: when it fails at one call, some answer of the summarizer gives the session another tier-7 history |
| WriteGuard.WriteLedger.Append | benchmarks/taubench/reliability.py:137-138 | a record is appended and nothing else changes |
| WriteGuard.WriteLedger.IsRepeatWrite | benchmarks/taubench/reliability.py:143-148 | true exactly when a successful record of the same tool and arguments exists |
| WriteGuard.ToolBelt.Invoke | benchmarks/taubench/tau_env.py:54-101 | one call as one step on ledger, prompted set and episode state, for every combination of levers |
| WriteGuard.LedgerIsWriteLog | benchmarks/taubench/tau_env.py:85-101 | over every run the ledger is, in order, the log of the writes that reached the environment and how they came out |
| WriteGuard.NoWriteAfterItsSuccess | benchmarks/taubench/tau_env.py:67-76 | with the duplicate guard on, no record of a write follows a successful record of the same write |
| WriteGuard.SucceedsAtMostOnce | benchmarks/taubench/tau_env.py:67-76 | with the duplicate guard on, a write succeeds at most once over any run, and it did exactly when the ledger says so |
| WriteGuard.PromptedExactlyOnce | benchmarks/taubench/tau_env.py:77-84 | with grounding on, a write called with arguments that validation lets through is prompted exactly once over any run, and otherwise never |
| WriteGuard.ExecutionIsPreceded | benchmarks/taubench/tau_env.py:77-101 | with grounding on, exactly one prompt of the same write stands before every executed write |
| WriteGuard.AllLeversAccounting | benchmarks/taubench/tau_env.py:54-101 | with guard and grounding on, the calls of a write that validation lets through split into one prompt, blocked repeats and executions, at most one of them successful |
| WriteGuard.BlockedForeverAfterSuccess | benchmarks/taubench/tau_env.py:67-76 | with the duplicate guard on, over any run every later call of a write that succeeded is turned away |
| WriteGuard.WriteToolIff | benchmarks/taubench/reliability.py:105-129 | a tool writes if and only if its name begins with one of the prefixes |
| WriteGuard.ErrorTextIff | benchmarks/taubench/reliability.py:159-164 | an observation reads as an error if and only if, behind nothing but whitespace, it begins with that word in letters of either case |
| WriteGuard.OutcomeByHistory | benchmarks/taubench/tau_env.py:54-101 | what becomes of each call of any run, by the calls before it: turned away as invalid exactly when validation is on and its arguments are bad; then blocked exactly when the guard is on and the write has succeeded before; then prompted exactly when grounding is on and the write has not been prompted; and otherwise executed |
| WriteGuard.OutcomeLeaves | benchmarks/taubench/tau_env.py:54-101 | a call turned away leaves ledger, prompted set, reward and done flag as they were, a prompt leaves its mark only, an execution what the environment showed and a record if it was a write |
| WriteGuard.LowerIs | benchmarks/taubench/reliability.py:159-164 | lower-casing moves the 26 capitals to their small letters and changes nothing else |
| WriteGuard.SpacesAre | benchmarks/taubench/reliability.py:159-164 | the ten ASCII characters that are stripped as whitespace |
| Episode.VerifyFinal | benchmarks/taubench/reliability.py:181-197 | a nudge is due exactly when success is claimed and the last write failed or none succeeded |
| Episode.RunTurn | benchmarks/taubench/episode.py:82-94 | the calls of one turn go through the tool belt in order |
| Episode.TurnsAreAccounted | benchmarks/taubench/episode.py:96-136 | turns are responds plus at most one nudge, one review and one exit inside a turn, within the limit; a crash ends the run without reward and is the only infra error; a run without one ends done or at the limit |
| Episode.NothingUnclearedReachesTheUser | benchmarks/taubench/episode.py:109-134 | an unsupported success claim is passed on only after the nudge was spent, a conclusion only after the review was spent |
| Episode.ResultIsLastObserved | benchmarks/taubench/episode.py:131-136 | a run that does not crash returns the last reward and done flag observed, from tools or responds alike |
| Episode.ClaimIsConclusion | benchmarks/taubench/reliability.py:207-225 | every text that claims success also reads as a conclusion |
| Episode.PlayTurn | benchmarks/taubench/episode.py:98-135 | the body of the loop on the shared state: whether the turn ends the episode, with which result, and the flags afterwards |
| Episode.RunEpisode | benchmarks/taubench/episode.py:96-136 | the loop on the shared state plays the episode defined by recursion |
| Episode.ContainsIff | benchmarks/taubench/reliability.py:187-187 | a marker is found in a text exactly where it stands between any two texts |
| Episode.TurnsComeToTheirKind | benchmarks/taubench/episode.py:96-136 | every turn of an episode, by the writes executed up to its text: a crash without text, the end when its calls showed the done flag, the nudge exactly when the text claims a success that no executed write supports and no nudge was spent, the review exactly when it concludes and none was spent, and otherwise its text goes to the user |
| GreedyCover.BestIndex | benchmarks/authoring/gen.py:477-478 | the first candidate of maximal gain |
| GreedyCover.SelectCover | benchmarks/authoring/gen.py:469-485 | the loop that removes its picks makes the same picks as greedy choice that removes nothing |
| GreedyCover.GreedyCovers | benchmarks/authoring/gen.py:462-485 | from any covered set on, the picks cover the rest, come from the candidates and number at most one per uncovered pair |
| GreedyCover.PickGainsItsShare | benchmarks/authoring/gen.py:477-479 | against any other cover the next pick gains at least the uncovered pairs divided by the size of that cover |
| GreedyCover.GeometricDecay | benchmarks/authoring/gen.py:476-484 | after k picks the uncovered pairs times n^k are at most (n-1)^k times those at the start, n the size of any other cover |
| GreedyCover.PicksBound | benchmarks/authoring/gen.py:476-484 | hence how many picks are enough |
| GreedyCover.SelectionCovers | benchmarks/authoring/gen.py:462-485 | every pair of every candidate occurs in some pick |
| GreedyCover.SelectionNearOptimal | benchmarks/authoring/gen.py:462-485 | the decay bound for the selection as a whole |
| GreedyCover.BestIsFirst | benchmarks/authoring/gen.py:474-482 | among candidates of equal gain the first is taken |
| PairwiseSlots.SelectPairwise | benchmarks/authoring/gen.py:442-485 | the selection on slot combinations |
| PairwiseSlots.EveryValuePairIsChosen | benchmarks/authoring/gen.py:442-485 | for any two named slots, the values they hold together somewhere in the matrix are held together by some chosen combination |
| PairwiseSlots.PairsAreOfTwoSlots | benchmarks/authoring/gen.py:442-460 | the pairs of a combination are those of the values of two different slots |
| MatchedCredit.JaccardRange | benchmarks/multibug/scorer.py:108-116 | the overlap is a fraction, symmetric, and whole exactly for equal non-empty evidence |
| MatchedCredit.FindBest | benchmarks/multibug/scorer.py:144-151 | the loop finds the first best match |
| MatchedCredit.BestMatchIsBest | benchmarks/multibug/scorer.py:144-151 | the match is an upper bound of all overlaps, positive when there is one, and the first to reach it |
| MatchedCredit.CreditIsStrongest | benchmarks/multibug/scorer.py:152-156 | the credit of a prediction is the strongest overlap among the golds whose best match it is, zero otherwise |
| MatchedCredit.ScoreInstance | benchmarks/multibug/scorer.py:125-177 | the nested loops over golds and predictions and the credit dictionary compute coverage, precision and F1 |
| MatchedCredit.ScoresAreFractions | benchmarks/multibug/scorer.py:125-159 | coverage and precision lie between 0 and 1 |
| MatchedCredit.CreditIsMatched | benchmarks/multibug/scorer.py:129-157 | predictions times precision is at most golds times coverage: no gold is credited twice |
| MatchedCredit.F1IsBetween | benchmarks/multibug/scorer.py:119-122 | F1 lies between coverage and precision when both are positive and is zero otherwise |
| MatchedCredit.DuplicatesNeverPay | benchmarks/multibug/scorer.py:138-157 | a copy of a prediction leaves coverage as it is and scales precision by n/(n+1) |
| MatchedCredit.CoverageIgnoresOrder | benchmarks/multibug/scorer.py:129-136 | coverage is the same for every order of the predictions |
| MatchedCredit.PrecisionIgnoresOrderWithoutTies | benchmarks/multibug/scorer.py:138-161 | precision and F1 are the same for every order of the predictions whenever predictions that tie for a best overlap of a gold hold the same evidence |
| MatchedCredit.PrecisionDependsOnOrder | benchmarks/multibug/scorer.py:144-157 | without that, two orders of the same predictions with different precision |
| MatchedCredit.JaccardIsShare | benchmarks/multibug/scorer.py:108-116 | the overlap is the share of the shared ids in all ids of both |
| MatchedCredit.CoverageOfOne | benchmarks/multibug/scorer.py:129-136 | the coverage of one gold is its best overlap: some prediction has it and none exceeds it |
| MatchedCredit.CoverageIsMean | benchmarks/multibug/scorer.py:129-136 | coverage times the number of golds is the sum of their best overlaps |
| MatchedCredit.SumBestConcat | benchmarks/multibug/scorer.py:129-136 | that sum adds up over lists of golds, so coverage weighs every gold alike |
| MatchedCredit.F1IsHarmonic | benchmarks/multibug/scorer.py:119-122 | twice the inverse of F1 is the sum of the inverses |
| MatchedCredit.NothingScoresZero | benchmarks/multibug/scorer.py:125-136 | without golds or without predictions all three scores are zero |
| PassHatK.DrawsAreCounted | benchmarks/taubench/scorer.py:17-18 | the binomial coefficient counts the k-element subsets |
| PassHatK.RateIsShareOfDraws | benchmarks/taubench/scorer.py:17-18 | a task rate is the share of all draws of k trials in which every drawn trial succeeded |
| PassHatK.PassHatKShape | benchmarks/taubench/scorer.py:12-19 | pass^k is a fraction, does not grow with k, and does not fall when tasks succeed more often |
| PassHatK.PassOneIsAverageReward | benchmarks/taubench/harness.py:42-48 | through the harness pass^1 equals the average reward exactly |
| PassHatK.RunWithRetry | benchmarks/taubench/harness.py:16-39 | the result is that of the first attempt without infra error, a success if it ended with a reward of at least one; giving up means all allowed attempts had an infra error |
| PassHatK.SuccessesAreCounted | benchmarks/taubench/harness.py:46-46 | the successes of a task are its trials that came out true |
| PassHatK.AggregateRefusesIff | benchmarks/taubench/harness.py:44-45 | the results are refused exactly when some task has another number of them |
| PassHatK.EstimateExistsIff | benchmarks/taubench/scorer.py:12-19 | there is no estimate without trials, and beyond their number it is zero |
| ScopedState.PerInvocationState.Set | magi_agent/packs/context.py:678-680 | the write and the eviction loop |
| ScopedState.SetKeepsStoreSound | magi_agent/packs/context.py:678-716 | every write keeps keys unique and the number of invocations within the bound |
| ScopedState.SetWithoutEviction | magi_agent/packs/context.py:707-716 | nothing is evicted while few enough invocations are alive |
| ScopedState.OverflowEvictsOldest | magi_agent/packs/context.py:707-716 | the first write of a new invocation into a full store evicts exactly the oldest invocation, whole |
| ScopedState.ScopedScalarView.DelItem | magi_agent/adk_bridge/edit_retry_reflection.py:162-166 | deletes a present key and reports an absent one |
| ScopedState.ScopedScalarView.Iterate | magi_agent/adk_bridge/edit_retry_reflection.py:168-178 | the keys of the view in store order |
| ScopedState.NamespacesDisjointIff | magi_agent/adk_bridge/edit_retry_reflection.py:77-79 | two namespaces never share a stored name if and only if neither, with its separator, extends the other |
| ScopedState.ViewSet | magi_agent/adk_bridge/edit_retry_reflection.py:150-160 | setting through a view is a map update on it and invisible through any other |
| ScopedState.ViewDelete | magi_agent/adk_bridge/edit_retry_reflection.py:162-166 | deleting through a view removes that key only, and nothing from any other view |
| ScopedState.ViewIteratesItsKeys | magi_agent/adk_bridge/edit_retry_reflection.py:168-181 | iteration yields exactly the keys that can be got, each once, so the length counts them |
| ScopedState.PutKeepsOrder | magi_agent/packs/context.py:678-680 | a write keeps insertion order: a known key keeps its place with the new value, a new one comes last |
| ScopedState.RemovalsKeepOrder | magi_agent/packs/context.py:682-699 | popping a key and clearing an invocation keep the order of what stays |
| ScopedState.ViewKeysConcat | magi_agent/adk_bridge/edit_retry_reflection.py:168-178 | a view lists its keys in store order |
| ScopedState.ScopedScalarView.GetItem | magi_agent/adk_bridge/edit_retry_reflection.py:150-155 | reads the value stored under the namespaced name, or none |
| ScopedState.ScopedScalarView.SetItem | magi_agent/adk_bridge/edit_retry_reflection.py:157-160 | writes under the namespaced name, with the eviction that follows |
| ScopedState.UniquePopped | magi_agent/packs/context.py:682-683 | popping a key keeps the keys of the store unique |
| EditRetry.Plugin.Reflect | magi_agent/adk_bridge/edit_retry_reflection.py:303-358 | counts the failed edit and hands out guidance while attempts are left |
| EditRetry.Plugin.AfterTool | magi_agent/adk_bridge/edit_retry_reflection.py:258-285 | the injected response changes nothing, a good result resets, a failure is counted |
| EditRetry.Plugin.AfterRun | magi_agent/adk_bridge/edit_retry_reflection.py:287-299 | the end of a run sweeps that invocation; one without an id sweeps nothing |
| EditRetry.CounterIsFailuresSince | magi_agent/adk_bridge/edit_retry_reflection.py:258-382 | over every run in which at no moment more invocations are alive than the store holds, however many there are in all and whatever other controls write, a counter is the number of failed edits since the last success or sweep |
| EditRetry.GuidanceIsBounded | magi_agent/runtime/turn_utilities.py:96-120 | between resets the model is guided once per failure but at most one time fewer than the maximum of attempts |
| EditRetry.CounterAgreesIff | magi_agent/packs/context.py:707-716 | over every run, bounded or not, a counter never exceeds the failures since its reset, and equals them if and only if its invocation was not evicted while failures stood |
| EditRetry.EvictionRestartsCounter | magi_agent/packs/context.py:707-716 | a run with room for one invocation in which the counter restarts |
| EditRetry.UnidentifiedRunsAccumulate | magi_agent/adk_bridge/edit_retry_reflection.py:393-397 | the stored counter of calls without an invocation id goes up by every failure of any number of further runs: none of them sweeps it |
| EditRetry.ScopesAreSeparate | magi_agent/adk_bridge/edit_retry_reflection.py:393-397 | two invocations share a counter scope only if they are the same, and calls without an id have a scope of their own |
| EditRetry.AliveIff | magi_agent/packs/context.py:678-699 | the invocations alive are exactly those written to since their last end |
| ResumableRun.RunBenchmark | benchmarks/multibug/run.py:65-102 | a run interrupted after any number of instances appends to the file what the recursive description says and counts the skipped |
| ResumableRun.NewLinesAreResults | benchmarks/multibug/run.py:79-102 | every new line is the record of a listed instance with at least two golds that was not completed |
| ResumableRun.RunSettles | benchmarks/multibug/run.py:79-102 | after a run every instance is completed or has fewer than two golds |
| ResumableRun.RunKeepsOneRecordPerId | benchmarks/multibug/run.py:66-102 | no second record of an id is written and no earlier line is touched |
| ResumableRun.ResumeRefinesOneRun | benchmarks/multibug/run.py:65-129 | any series of interrupted runs completed by a full one leaves the file and score inputs of one uninterrupted run |
| ResumableRun.SkippedAgreesIff | benchmarks/multibug/run.py:78-90 | after any series of interrupted runs the completing run reports at most the skips of one uninterrupted run, and as many if and only if no short instance is followed, within the longest interrupted run, by the first longer one of its id |
| ResumableRun.ResumeChangesSkipped | benchmarks/multibug/run.py:78-90 | a list of two instances with one id for which a second run reports another number of skips |
| ResumableRun.ScoreInputsAre | benchmarks/multibug/run.py:103-129 | the score is refused exactly when some line is an object without an id, and is otherwise taken over all records in order |
| SidecarCache.DashboardProducerControl.LoadChecks | magi_agent/adk_bridge/dashboard_producer_control.py:182-195 | one load with the writer at work in all three gaps |
| SidecarCache.RacedStoreIsSound | magi_agent/adk_bridge/dashboard_producer_control.py:193-194 | storing what was read under the mtime of the earlier stat is sound whatever was written in between |
| SidecarCache.LoadIsSound | magi_agent/adk_bridge/dashboard_producer_control.py:182-195 | a load keeps the cache sound; a hit returns what was on disk at the stat, a miss what was there at the read |
| SidecarCache.CacheStaysSound | magi_agent/adk_bridge/dashboard_producer_control.py:182-195 | over every history with increasing mtimes an entry whose mtime is current holds the current content |
| SidecarCache.HitsAreCurrent | magi_agent/adk_bridge/dashboard_producer_control.py:190-192 | so every hit of a history is current at its stat, however many stores were raced |
| SidecarCache.SameTickGoesStale | magi_agent/adk_bridge/dashboard_producer_control.py:190-192 | with two saves of the same mtime a hit can be stale |
| CacheMarkers.MarkMessage | magi_agent/adk_bridge/anthropic_cache_model.py:270-301 | the scan from the end marks the last mapping block, or wraps plain content |
| CacheMarkers.LastMappingIsMarked | magi_agent/adk_bridge/anthropic_cache_model.py:286-290 | block by block: the last mapping gets the marker, every other block is unchanged |
| CacheMarkers.InjectMessageTail | magi_agent/adk_bridge/anthropic_cache_model.py:221-261 | the tail is marked for the requested size clamped to 0..2 |
| CacheMarkers.TailMarking | magi_agent/adk_bridge/anthropic_cache_model.py:221-261 | of a marker-free list at most n messages get a marker, and marking again changes nothing |
| CacheMarkers.OnlyTheTailIsMarked | magi_agent/adk_bridge/anthropic_cache_model.py:254-260 | system messages and messages before the last n non-system ones are unchanged |
| CacheMarkers.TheTailIsMarked | magi_agent/adk_bridge/anthropic_cache_model.py:254-260 | each of the last n non-system messages is marked |
| CacheMarkers.TailMarkingIsInvisible | magi_agent/adk_bridge/anthropic_cache_model.py:221-301 | with the markers erased every message is what it was, plain content reading as one text block |
| CacheMarkers.SystemPromptIsUnchanged | magi_agent/adk_bridge/anthropic_cache_model.py:188-213 | the system blocks concatenate to the original prompt and exactly one carries a marker |
| CacheMarkers.MarkedPrefixIgnoresTail | magi_agent/adk_bridge/anthropic_cache_model.py:193-209 | the marked block depends only on the text up to the first boundary |
| CacheMarkers.AtMostThreeBreakpoints | magi_agent/adk_bridge/anthropic_cache_model.py:172-261 | system prompt and tail together never carry more than three markers |
| CacheMarkers.RequestedTailIsMarked | magi_agent/adk_bridge/anthropic_cache_model.py:240-261 | for any requested size a message is marked exactly when it is no system message and fewer non-system ones follow it than two and than requested |
| CacheMarkers.MarkedCarriesOne | magi_agent/adk_bridge/anthropic_cache_model.py:270-301 | a marked message carries one marker, unless it is no mapping or a list without a mapping |
| CacheMarkers.MarkerFreeIff | magi_agent/adk_bridge/anthropic_cache_model.py:270-301 | the marker count is zero exactly when no block is marked |
| CacheMarkers.SystemBlocksAreTight | magi_agent/adk_bridge/anthropic_cache_model.py:188-213 | only the first system block is marked, it ends with the boundary or is the whole prompt, and no block is empty |
| PartSanitizer.SanitizeParts | magi_agent/adk_bridge/anthropic_part_sanitizer.py:137-159 | the loop keeps what the converter takes and reports one dropped entry per part removed |
| PartSanitizer.SafeContents | magi_agent/adk_bridge/anthropic_part_sanitizer.py:162-215 | contents left without parts are skipped; input parts equal output parts plus dropped entries |
| PartSanitizer.EveryMessageConverts | magi_agent/adk_bridge/anthropic_part_sanitizer.py:188-204 | no message is empty, none holds a part the converter rejects or reasoning while thinking is off, and each is some input content under its own role |
| PartSanitizer.OutputIsInOrderFilter | magi_agent/adk_bridge/anthropic_part_sanitizer.py:137-204 | read in sequence the output parts are the kept input parts, in order |
| PartSanitizer.SanitizeIsIdempotent | magi_agent/adk_bridge/anthropic_part_sanitizer.py:137-204 | sanitizing again changes nothing |
| PartSanitizer.ToolPairsSurviveIff | magi_agent/adk_bridge/anthropic_part_sanitizer.py:150-158 | all tool parts survive, in order, exactly when thinking is on or none of them carries reasoning |
| PartSanitizer.SanitizedIsPairedIff | magi_agent/adk_bridge/anthropic_part_sanitizer.py:150-158 | with thinking off the sanitized history has every response paired, by id or by name, if and only if each plain response has a plain call; with thinking on sanitizing never changes whether a history is paired |
| PartSanitizer.ThinkingTextSurvives | magi_agent/adk_bridge/anthropic_part_sanitizer.py:107-112 | with thinking on no text is lost, signed or not |
| PartSanitizer.PartsThatSurvive | magi_agent/adk_bridge/anthropic_part_sanitizer.py:62-159 | exactly which parts come through: those that carry text, a tool part, media, code or its result, or signed reasoning, and with thinking off only those without reasoning |

## Left out

- Calls to the model, the summarizer, the environment, ADK and the network: their results are parameters; timeouts, back-off delays and logging are not modelled.
- Exception handlers that leave the request as it is when something inside the plugin fails, including a payload that cannot be serialized; a lever of the tau-bench driver that raises; a respond step or an assertion that raises out of the episode loop.
- The before and after compaction audit and shell fan-outs: they do not touch the request.
- Rendering of the dropped transcript, prompt texts and the wording of guidance: only which text goes where is modelled.
- A response part, a call part and a text part are separate parts; a part carrying several of these at once is modelled only in `PartSanitizer`. An absent id or name is the empty string.
- CompactionPlugin.Plugin.TrimRequest: uses the prune by its value-level meaning; the in-place version and its refinement are in `PruneHeap`. The lifecycle boundary is its threshold decision; its provenance record and its disabled and blocked outcomes are not modelled.
- CompactionTurn.EveryRequestIsOrphanFree: asks for a chained and unmixed history; for the trim and for selections of rounds the exact conditions are proved separately.
- Escalation.LadderIsOrphanFree: excludes a request that consists of one orphan response, which the fail-safe returns as it is.
- Fractions and percentages are exact reals; floating-point rounding in thresholds, scores and pass^k is not modelled.
- Lower-casing and stripping of observations and agent text cover ASCII only.
- Validation of tool arguments against a parameter schema is a parameter of the call.
- EditRetry.CounterIsFailuresSince: asks that at no moment more invocations are alive than the store holds; what happens beyond is in `EditRetry.CounterAgreesIff`. Classification of edit errors is left out, as it does not influence counting.
- The per-invocation object store beside the scalar store, and views without a namespace.
- ResumableRun.ResumeRefinesOneRun: results files are sequences of whole lines; a line torn by a crash, and JSON lines that are not objects, are not modelled. Interruptions fall between instances and the runner is deterministic.
- SidecarCache.CacheStaysSound: needs every save to get a later mtime than any before it; without that a hit can be stale (`SidecarCache.SameTickGoesStale`). Two loads of the same control at once are not modelled.
- Scenario derivation, deduplication and writing of the authoring corpus; judge scores, averages over instances and lift of the multi-bug scorer; the subset loop of the tau-bench harness: they would add only easy members.
- The converter behind the part sanitizer is its case chain; the message it builds is not modelled. Media parts are convertible whenever they have a type.
- Request routing, gates under `evals/`, other benchmarks, the user interface and scripts.
- MatchedCredit.PrecisionIgnoresOrderWithoutTies: one direction only; predictions that tie with different evidence may still score alike in every order.
- The contents of successive calls are arbitrary; how the framework rebuilds the history between calls is not part of this model.

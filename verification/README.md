# Verification of the fleet, approval and live-state logic

A Dafny model of the parts of this repository whose correctness no single function shows, and proofs of what they are
for. `dafny verify dfyconfig.toml` checks all of it.

| module | what it models |
|---|---|
| StoryGraph, StoryOrder, StoryLayout | the story graph: an iterative depth-first search that cuts cycles, which edges it cuts, longest-path columns, barycentre order |
| LineDiff | the line diff: a table filled backwards in a flat array, a greedy walk, trimmed common ends |
| AuditModel, AuditTheorems, AuditEntries, AuditRoutes, AuditCoverage | audit scopes and transaction tallies: a step machine over values, what holds over every run, and the module itself with its fields changed in place |
| ApprovalEligibility, ApprovalEngine, SerialQueue, LockOrder | one approval request under deciders, cancellers, closers, the sweeper, executions and redemptions on any number of instances; the in-process queue; the two lock orders |
| LogView, LogViewer | a bounded two-ended window on a growing log, and the viewer that keeps one request in flight |
| ConfigDraft | the config page's draft overlay against the plain file map |
| Citations, HtmlTokens, Weaving, MarkdownLinks, MarkdownRewrite, TagDepth | the linear citation scanner, the tag tokenizer, the link rewrite that only inserts, and how far its stack agrees with the fragment's own tags |
| ThreadMerge | the merge of thread messages and its refetch cursor |
| EventStream, EventHub | the reconnecting stream and the hub that shares one per URL |
| Wrappers | a value that may be absent |

Where the source changes state step by step, a class or a method with loops is proved against a function on values, and
the properties are proved about that function. Concurrent code is a step machine: any party may take any enabled step at
any time, and a property of every run is a lemma over every list of steps.

What outside code is taken to do:

- the request repository: `transition` is a compare-and-set on the status, `lockById` waits and holds the row to the end
  of the transaction, `lockByIdSkipLocked` never waits, a transaction's writes appear together at its commit or not at
  all (`prisma-approval-request.repository.ts:106-120,199-202`);
- the log read service: entries ascend and a page scans exactly the interval it reports
  (`log-read.service.ts:177-217`); `onChange` does not call back into the viewer;
- browser objects: a closed event source fires nothing, a cleared timer does not fire, and the session refresh always
  answers (`useAuth` catches every failure); streams emit from the event loop, one event at a time;
- who raises requests: a request a command decides was raised before the request that asked for the command, so every
  engine takes its requests in one order (`approval-route.commands.ts:60-63`).

Where the code and its own words differ, the model follows the code:

- `nax-config.ts:34` says an unedited file stays unchanged. A file with mixed line endings does not:
  `ConfigDraft.MixedEndingsTurnUpModified` is one, and `ConfigDraft.UneditedStaysExactlyWhenUniform` says exactly which
  files do.
- `thread-markdown.ts:24` says text inside an existing link or a fenced block is left alone. The stack also reads text
  runs that start with `<` as tags (`tagOf` lets white space through), so in `<a>< /a <b>X</b></a>` the text gets a link
  inside the link: `TagDepth.LooseEndTag`. `TagDepth.NeverInsideExactlyWhen` says for which fragments the promise holds;
  `TagDepth.NoneInsideOpenLink` and `TagDepth.RewriteIsRight` give plain conditions on the text runs that are enough.
- `thread-markdown.ts:257` calls the tokens alternating. Two tags may stand next to each other, as in
  `TagDepth.TagsSideBySide`; two text runs may not. `TagDepth.AlternateExactlyWhen` says when they do alternate.
- The run-once guarantee after a failed callback holds on one instance, as the queue's comment says:
  `ApprovalEngine.RunsAgainExactlyWhen` says exactly when another instance can run the command in between, and
  `ApprovalEngine.SecondInstanceRunsAgain` is such a run. On one instance a second run takes a callback that failed as
  "not pending", or a transaction that did not commit: `ApprovalEngine.SecondRunMeansGivenUp`. The command's writes are
  still committed at most once.
- An approved request is not always executed or failed in the end: it can expire, exactly where it is one to be redeemed
  (`approval-request-expiry.sweeper.ts:143-155`): `ApprovalEngine.ExpiresExactlyWhenRedeemed`, and
  `ApprovalEngine.ApprovedThenExpired` for one run.
- `refetchAfterSeq` and `mergeMessages` bring the server's list, except where a message is streaming on both sides and
  held longer: `ThreadMerge.RefetchIsServerExactlyWhen`, and `ThreadMerge.HeldAheadStays` for one message.

## Model

| member | source | states |
|---|---|---|
| StoryGraph.AssignColumns | apps/web/lib/fleet-story-graph.ts:35-71 | for every finite dependency map: exactly the stories and what they reach get a column; each column is the length of the longest chain of kept dependencies below it; a cut edge was declared and kept edges lead back from its dependency to its story; every declared occurrence of a cut edge is reported once; and the iterative loop gives what the recursive depth-first search in PRD order gives |
| StoryGraph.ChainDescends | apps/web/lib/fleet-story-graph.ts:35-71 | columns that satisfy the local equation strictly descend along every chain of kept dependencies, so no chain is longer than its first column |
| StoryGraph.DeepestChain | apps/web/lib/fleet-story-graph.ts:35-71 | below every story there is a chain of kept dependencies exactly as long as its column |
| StoryGraph.LayeredIsLongest | apps/web/lib/fleet-story-graph.ts:35-71 | the local equation (one past the deepest kept dependency) alone pins each column to the longest chain |
| StoryGraph.FinishedColumn | apps/web/lib/fleet-story-graph.ts:64-67 | the column computed when a frame is popped satisfies the local equation, whatever was cut |
| StoryGraph.StackPath | apps/web/lib/fleet-story-graph.ts:45-63 | every story on the stack reaches every story above it over edges the search went down |
| StoryGraph.FirstSight | apps/web/lib/fleet-story-graph.ts:50-57 | an uncut edge to a story still open is seen for the first time, so repeated dependencies are cut and counted once |
| StoryGraph.AllLookedAt | apps/web/lib/fleet-story-graph.ts:49-66 | a frame with no dependency left has each one either cut or finished |
| StoryGraph.MoveUnwinds | apps/web/lib/fleet-story-graph.ts:47-68 | one move of the explicit stack leaves the recursive search that remains to be done as it was |
| StoryGraph.CutsCloseCycles | apps/web/lib/fleet-story-graph.ts:53-57 | each cut edge lies on a real cycle: kept edges lead from its dependency back to its story |
| StoryGraph.AllReported | apps/web/lib/fleet-story-graph.ts:53-57 | each declared occurrence of a cut edge is reported exactly once, and no other edge is |
| StoryGraph.ColumnsAreReached | apps/web/lib/fleet-story-graph.ts:43-69 | a story has a column exactly when a listed story reaches it |
| StoryOrder.CutExactlyWhen | apps/web/lib/fleet-story-graph.ts:43-63 | of every story met, the edges cut are exactly those back to a story on its first path: from the first story in PRD order that reaches it, always by the first declared dependency from which it is still reached without coming back to the path |
| StoryOrder.FirstPathUnique | apps/web/lib/fleet-story-graph.ts:43-63 | a story has at most one first path, so which edges are cut is fixed by the PRD and declared orders alone |
| StoryOrder.UnreachedKeepsAll | apps/web/lib/fleet-story-graph.ts:43-63 | a story that no earlier story reaches keeps every dependency but one on itself |
| StoryLayout.LayoutStoryGraph | apps/web/lib/fleet-story-graph.ts:74-103 | the columns partition the rows kept by id, none is empty, each story stands in the column of its longest kept chain, each column is ordered by the mean place of the kept dependencies to its left, the PRD order on ties; a known dependency is left undrawn exactly when it leads back to a story on the first path; each declared dependency occurrence is drawn once or reported once; edges are drawn in PRD and declared order, and what is unknown is reported so, before the cycles in the order of the search; a cycle is reported exactly when the known dependencies have one |
| StoryLayout.PlaceLayers | apps/web/lib/fleet-story-graph.ts:89-100 | placing and sorting the layers loses and repeats no story and leaves every layer sorted by the layers before it |
| StoryLayout.FirstByIdKeepsFirst | apps/web/lib/fleet-story-graph.ts:75-79 | every id is shown, by the first row that carries it |
| StoryLayout.KnownInOrder | apps/web/lib/fleet-story-graph.ts:81 | the known ones of the declared dependencies keep their declared order |
| StoryLayout.ColumnsRise | apps/web/lib/fleet-story-graph.ts:89-100 | in each column the mean place of the kept dependencies in the columns to its left rises, the PRD order deciding between equal means; the mean is said as places and their sum, not as the sort computes it |
| StoryLayout.AllListed | apps/web/lib/fleet-story-graph.ts:82-87 | edges are drawn and unknown dependencies reported story by story in PRD order, and for a story in declared order |
| StoryLayout.Order.SortSorted | apps/web/lib/fleet-story-graph.ts:93-99 | the layer sort gives barycentre order, PRD order on ties |
| StoryLayout.FirstLayerSorted | apps/web/lib/fleet-story-graph.ts:91-92 | with nothing placed to its left the unsorted first layer is already in that order |
| StoryLayout.NoEmptyLayer | apps/web/lib/fleet-story-graph.ts:89-90 | a story in a later column keeps a dependency one column earlier, so no column in between is empty |
| StoryLayout.LayeredIsAcyclic | apps/web/lib/fleet-story-graph.ts:35-71 | the kept edges have no cycle |
| StoryLayout.CutIsOnCycle | apps/web/lib/fleet-story-graph.ts:53-57 | a cut edge with its way back is a cycle of the declared dependencies, so an acyclic input cuts nothing |
| StoryLayout.CycleReported | apps/web/lib/fleet-story-graph.ts:53-57 | a cycle is reported if and only if the declared known dependencies have one |
| StoryLayout.Conserved | apps/web/lib/fleet-story-graph.ts:81-87 | drawn edges, unknown dependencies and cycles together mention each declared occurrence exactly as often as it was declared |
| StoryLayout.PairsAreKept | apps/web/lib/fleet-story-graph.ts:81-87 | the drawn edges are exactly the declared known pairs that were not cut |
| LineDiff.LineDiff | apps/web/lib/nax-config-diff.ts:34-50 | kept and deleted lines spell the old text, kept and added lines the new one, in both modes; when the diff is not approximate it keeps as many lines as any common subsequence of the whole texts; it is approximate exactly when the trimmed table would pass the cell limit; and between kept lines deletions stand before additions |
| LineDiff.LcsDiff | apps/web/lib/nax-config-diff.ts:13-32 | the table filled backwards in place and the greedy walk over it give the walk of the suffix recursion |
| LineDiff.FillTable | apps/web/lib/nax-config-diff.ts:14-22 | every cell ends as the suffix recursion says, in 32 bits without overflow |
| LineDiff.FillCell | apps/web/lib/nax-config-diff.ts:18-22 | one cell becomes what the recursion says and no other cell changes |
| LineDiff.LcsFits | apps/web/lib/nax-config-diff.ts:17-20 | no cell of a table within the limit overflows its 32 bits |
| LineDiff.WalkSpells | apps/web/lib/nax-config-diff.ts:23-31 | the walk spells both middles and keeps exactly as many lines as the table promises |
| LineDiff.WalkDelsFirst | apps/web/lib/nax-config-diff.ts:23-31 | between two kept lines every deletion stands before every addition: no deletion directly follows an addition |
| LineDiff.LinesAreCut | apps/web/lib/nax-config-diff.ts:8 | no line holds a line feed, there is one line more than line feeds, and only the empty text has none |
| LineDiff.LcsBounds | apps/web/lib/nax-config-diff.ts:17-22 | the suffix recursion is the length of a longest common subsequence: one is that long, none is longer |
| LineDiff.PrefixTakes | apps/web/lib/nax-config-diff.ts:37-38 | a common subsequence of two texts with the same first lines loses at most those lines without them |
| LineDiff.SuffixTakes | apps/web/lib/nax-config-diff.ts:39-41 | the same at the end of the texts, where the suffix recursion says nothing |
| LineDiff.TrimmedIsLongest | apps/web/lib/nax-config-diff.ts:34-50 | keeping both common ends and walking the middle is optimal for the whole texts |
| AuditTheorems.ClosedIsFinal | apps/api/src/action-context/audit-coverage.ts:107-109 | no step changes the writes or entries of a closed scope |
| AuditTheorems.ClosedIsFinalForever | apps/api/src/action-context/audit-coverage.ts:107-109 | over every later run a closed scope keeps its writes and entries |
| AuditEntries.RunApart | apps/api/src/action-context/audit-coverage.ts:161-282 | over every run an entry is buffered in at most one live tally, and in no scope while it is |
| AuditEntries.RejectedReachesNoScope | apps/api/src/action-context/audit-coverage.ts:161-198 | rejecting a transaction changes no scope, and no write and no entry it had buffered is in a scope in any later state |
| AuditTheorems.DetachedIsolated | apps/api/src/action-context/audit-coverage.ts:177-225 | no write and no entry noted inside a detached scope is ever counted in a scope outside it or held by a tally opened outside it, however the tallies nest |
| AuditTheorems.SameBoundary | apps/api/src/action-context/audit-coverage.ts:81-99 | a scope is on the same side of a detached boundary as every scope around it |
| AuditTheorems.RunHomed | apps/api/src/action-context/audit-coverage.ts:161-282 | whatever is held by a scope or a tally was noted where that scope or tally may hold it |
| AuditTheorems.StepMovesOrAdds | apps/api/src/action-context/audit-coverage.ts:161-282 | a step moves writes between places, and adds exactly the write it notes |
| AuditTheorems.RunConserves | apps/api/src/action-context/audit-coverage.ts:161-282 | over every run a write is in scopes, live tallies and the discarded ones together as often as it was noted |
| AuditTheorems.EachWriteInOnePlace | apps/api/src/action-context/audit-coverage.ts:161-282 | every noted write is at all times in exactly one place: one scope, one live tally, or discarded (AuditRoutes.LostExactlyWhen says which are discarded) |
| AuditTheorems.RunCovers | apps/api/src/action-context/audit-coverage.ts:177-282 | while a scope is open it has at least as many entries as its child scopes together |
| AuditTheorems.NestedRecordSatisfies | apps/api/src/action-context/audit-coverage.ts:262-290 | while an entry point is open a record in any scope inside it lets it pass |
| AuditTheorems.PassedMeansRecordedInside | apps/api/src/action-context/audit-coverage.ts:284-290 | a scope that wrote and is not exempt passes exactly when an entry is counted in it that was recorded inside it, on its own side of any detached boundary |
| AuditRoutes.AroundExactly | apps/api/src/action-context/audit-coverage.ts:219-225 | the scopes a scope is within are exactly those a walk from parent to parent leads to |
| AuditRoutes.RunAsOpened | apps/api/src/action-context/audit-coverage.ts:81-99 | over every run each scope has the surface and the parent, and each tally the scope and the enclosing tally, of the event that opened it; a scope opened detached has no parent |
| AuditRoutes.DetachedExactlyWhen | apps/api/src/action-context/audit-coverage.ts:87-96 | over every run a scope is detached exactly when it, or a scope it was opened in, was opened detached |
| AuditRoutes.DeliveredMoves | apps/api/src/action-context/audit-coverage.ts:242-282 | a note goes nowhere if its scope is closed, else to its tally if that owns the scope, else to its scope and, for an entry, the open scopes around it, else nowhere; nothing else moves |
| AuditRoutes.FlushedMoves | apps/api/src/action-context/audit-coverage.ts:177-198 | the work of a fulfilled tally goes by the same rule from the tally's own scope and towards the enclosing tally; nothing else moves, and only what comes to a settled tally is lost on the way |
| AuditRoutes.LostExactlyWhen | apps/api/src/action-context/audit-coverage.ts:161-260 | over every run a write is lost exactly if its scope was closed when it was noted or flushed, it belonged to no scope and no tally owned it, it came to a settled tally, or its tally was rejected |
| AuditRoutes.LandedExactlyWhen | apps/api/src/action-context/audit-coverage.ts:177-260 | over every run a scope holds a write exactly if a note or a flush sent it there |
| AuditRoutes.CountedExactlyWhen | apps/api/src/action-context/audit-coverage.ts:177-282 | over every run a scope counts an entry exactly if a note or a flush sent it to that scope or to one inside it while the scope was open |
| AuditRoutes.BufferedExactlyWhen | apps/api/src/action-context/audit-coverage.ts:177-260 | over every run a tally holds a write exactly if a note or an inner flush handed it over |
| AuditRoutes.ClosedExactlyWhen | apps/api/src/action-context/audit-coverage.ts:107-109 | over every run a scope is closed exactly if it was closed by an event |
| AuditRoutes.SettledExactlyWhen | apps/api/src/action-context/audit-coverage.ts:161-173 | over every run a tally has settled exactly if its callback fulfilled or rejected |
| AuditRoutes.FailsExactlyWhen | apps/api/src/action-context/audit-coverage.ts:288-296 | over every run the check of a scope fails exactly when a write was counted in it, no entry was, and its surface is not exempt |
| AuditCoverage.AuditCoverage.IsWithinScope | apps/api/src/action-context/audit-coverage.ts:219-225 | the walk up the parents finds the scope exactly when it is above |
| AuditCoverage.AuditCoverage.Holds | apps/api/src/action-context/audit-coverage.ts:211-216 | work outside every scope is held only by a tally opened outside; work in a scope by a tally opened in it or around it, or opened outside when the scope is not detached |
| AuditCoverage.AuditCoverage.CountEntries | apps/api/src/action-context/audit-coverage.ts:194-197 | the loop counts the entries in the scope and in every open scope around it, and nowhere else |
| AuditCoverage.AuditCoverage.OpenAuditScope | apps/api/src/action-context/audit-coverage.ts:81-99 | one opening step: a numbered scope under the context's scope, or under none when it is detached |
| AuditCoverage.AuditCoverage.CloseAuditScope | apps/api/src/action-context/audit-coverage.ts:107-109 | one closing step |
| AuditCoverage.AuditCoverage.AssertAndClose | apps/api/src/action-context/audit-coverage.ts:116-148 | the check at the end of an entry point says what the scope holds at that moment, and the scope is closed |
| AuditCoverage.AuditCoverage.OpenTransactionTally | apps/api/src/action-context/audit-coverage.ts:161-167 | one opening step: a tally that remembers the context's scope and enclosing tally |
| AuditCoverage.AuditCoverage.FlushTally | apps/api/src/action-context/audit-coverage.ts:177-198 | one fulfilling step: the buffer goes to the enclosing tally, to the open scope, or is discarded, as AuditRoutes.FlushedMoves says |
| AuditCoverage.AuditCoverage.RejectTally | apps/api/src/action-context/audit-coverage.ts:169-173 | one rejecting step: the buffer is discarded and no scope changes |
| AuditCoverage.AuditCoverage.NoteAuditWrite | apps/api/src/action-context/audit-coverage.ts:242-260 | one noting step: bookkeeping notes nothing; a write goes to the tally that holds its scope, to the open scope, or is lost |
| AuditCoverage.AuditCoverage.NoteAuditEntry | apps/api/src/action-context/audit-coverage.ts:268-282 | one noting step for an entry, by the same rule |
| ApprovalEligibility.EligibleExactlyWhen | apps/api/src/approvals/approval-eligibility.ts:91-121 | a decider is eligible with a tier exactly when the conditions hold together: a principal that may decide, distinct where that is required, with the keys needed, contributing that tier and it being enough |
| ApprovalEligibility.MoreKeysNeverHurt | apps/api/src/approvals/approval-eligibility.ts:63-121 | holding more keys never takes an eligibility away or changes its tier |
| ApprovalEngine.StepKeeps | apps/api/src/approvals/approval-execution.service.ts:231-337 | every step of deciders, cancellers, closers, the sweeper, executions and redemptions on any number of instances keeps the invariant of rows, locks, slots and views |
| ApprovalEngine.ReachKeeps | apps/api/src/approvals/approval-execution.service.ts:231-337 | the invariant holds in every reachable state |
| ApprovalEngine.CommittedOnceIffExecuted | apps/api/src/approvals/approval-execution.service.ts:258-337 | the command's writes are committed once if the status is executed and never otherwise, over every interleaving, failing callback, failing commit and revoked key |
| ApprovalEngine.NoLostTransition | apps/api/src/approvals/prisma-approval-request.repository.ts:199-202 | a compare-and-set made under the row lock never fails |
| ApprovalEngine.OneDecisionThatAgrees | apps/api/src/approvals/approval-decision.service.ts:81-137 | at most one decision is on record and it agrees with the status; only a timeout approval is released without one (ApprovalEngine.WhyItChanged ties it to the decision that was called) |
| ApprovalEngine.ReleasedAtSufficientTier | apps/api/src/approvals/approval-decision.service.ts:81-137 | a request a decider released records a tier at least the required mode, from a principal that may decide it with the keys it held at its decision, distinct where that is required; the human tier only from a user that is not the recorded requester |
| ApprovalEngine.RefusedByEligible | apps/api/src/approvals/approval-decision.service.ts:81-137 | a rejected request was rejected by one principal that may decide it with the keys it held |
| ApprovalEngine.StatusMoves | apps/api/src/approvals/approval-decision.service.ts:56-137 | the status moves only pending to approved, rejected, cancelled or expired, and approved to executed or failed (or to expired, for a redeemed request the sweeper finds stale) |
| ApprovalEngine.ExpiresExactlyWhenRedeemed | apps/api/src/approvals/approval-request-expiry.sweeper.ts:140-160 | from any reachable state with the request approved, some later run lets it expire exactly when the request is one to be redeemed |
| ApprovalEngine.ApprovedThenExpired | apps/api/src/approvals/approval-request-expiry.sweeper.ts:140-160 | a concrete run of that kind: the sweeper approves a request to be redeemed and later lets it expire |
| ApprovalEngine.SettledForever | apps/api/src/approvals/approval-decision.service.ts:56-137 | a settled row never changes again |
| ApprovalEngine.RunsUnderLockAndSlot | apps/api/src/approvals/approval-execution.service.ts:231-305 | the command runs only for a party that holds the row, its instance's slot and an approved request (ApprovalEngine.RunsOnlyWithKey adds the key) |
| ApprovalEngine.WhyItChanged | apps/api/src/approvals/approval-decision.service.ts:56-137 | over every run, each change of the row is a commit by a party that came for just that: a decision in time by a principal that may decide, approving or rejecting as it was called and recorded so; a cancellation by the requester; a close of an ask; a timeout or an expiry only when late; an execution whose command ran with its key; a failure whose callback failed, whose check refused, or whose key was lost. An approval that is not redeemed goes on to be executed |
| ApprovalEngine.WritesExactlyWhen | apps/api/src/approvals/approval-decision.service.ts:56-101 | a party that holds the row writes exactly when: to decide, the row is pending, the deadline has not passed and it may decide; to cancel, the row is pending and it is the requester; to close, the row is a pending ask; to sweep, the deadline has passed and the row is pending, or approved and to be redeemed |
| ApprovalEngine.TakesRowExactlyWhen | apps/api/src/approvals/approval-ask.service.ts:103-125 | a waiting party gets the row when it is free, with the status committed then; when it is held a closer ends at once and anyone else waits |
| ApprovalEngine.RunsExactlyWhen | apps/api/src/approvals/approval-execution.service.ts:281-305 | once a party has the row to run, its command runs exactly if the request is approved and, when something was prepared, its key still holds or the command checks keys itself |
| ApprovalEngine.RunsOnlyWithKey | apps/api/src/approvals/approval-execution.service.ts:231-305 | over every run, a command that runs was seen approved again inside the slot, went through preparation, and runs with its key if anything was prepared |
| ApprovalEngine.RevokedFails | apps/api/src/approvals/approval-execution.service.ts:287-298 | a party that prepared and has lost its key fails the approved request by its commit, with no run of the command on record |
| ApprovalEngine.SettlingStays | apps/api/src/approvals/approval-execution.service.ts:231-251 | it stays so, whatever others do, until its own settlement commits or fails |
| ApprovalEngine.NoRunWhileSettling | apps/api/src/approvals/approval-execution.service.ts:231-251 | meanwhile no other call on the same instance runs the command |
| ApprovalEngine.NoSecondRun | apps/api/src/approvals/approval-execution.service.ts:231-337 | on one instance a callback that fails, in preparation or in the transaction, and whose settlement commits is never followed by a second run: none on that instance up to the commit, and none anywhere after it |
| ApprovalEngine.SecondRunMeansGivenUp | apps/api/src/approvals/approval-execution.service.ts:231-337 | over every run, a second run of the command on the instance where a callback has run or failed means that in between that call gave up with nothing settled: its callback failed as "not pending", or its execution or its settlement did not commit |
| ApprovalEngine.GivenUpRunsAgain | apps/api/src/approvals/approval-route.commands.ts:60-67 | and whenever a call gives up so while the request is approved, a later run has the command run again on that same instance; so the deferred decision turns the "not pending" of the request it decides into another error |
| ApprovalEngine.RunsAgainExactlyWhen | apps/api/src/approvals/approval-execution.service.ts:231-251 | while a failure is being settled the command can run again exactly as long as the request is still approved and the settlement does not hold the row yet, and then only on another instance |
| ApprovalEngine.SecondInstanceRunsAgain | apps/api/src/approvals/approval-execution.service.ts:231-251 | a concrete run of that kind: of two callers on two instances the second runs the command in the gap before the failure of the first is settled |
| SerialQueue.RunKeeps | apps/api/src/approvals/approval-execution.service.ts:357-367 | in every run each call is chained on the call before it for the same id and the map holds the last tails |
| SerialQueue.OneAtATimeInOrder | apps/api/src/approvals/approval-execution.service.ts:357-367 | calls for one id run one at a time and in arrival order, whatever their outcomes |
| SerialQueue.OnlySameIdBlocks | apps/api/src/approvals/approval-execution.service.ts:357-367 | among the calls of an id that are not over the first is running or can start: other ids block nothing |
| SerialQueue.MapHoldsOnlyUnfinished | apps/api/src/approvals/approval-execution.service.ts:357-367 | the map holds an id only while a call for it has not returned |
| SerialQueue.Queue.Serialise | apps/api/src/approvals/approval-execution.service.ts:357-361 | one arrival: it takes the tail it finds and replaces it at once |
| SerialQueue.Queue.Finally | apps/api/src/approvals/approval-execution.service.ts:362-367 | one return: the map is cleared only if no later call has replaced the tail |
| LockOrder.NeverStuck | apps/api/src/approvals/approval-ask.service.ts:103-142 | closers that hold the job and skip a held request, with engines that hold one or more requests, taken in one order, and wait for a further request or for the job: while one party is unfinished, some unfinished party can step |
| LockOrder.EveryStepIsProgress | apps/api/src/approvals/approval-ask.service.ts:103-142 | every step leaves less to do, so every order of steps ends |
| LockOrder.WaitingCloseCanDeadlock | apps/api/src/approvals/approval-ask.service.ts:105-113 | were the close to wait for the row, one decider and one closer could wait for each other |
| LockOrder.CrossedRowsDeadlock | apps/api/src/approvals/approval-route.commands.ts:57-66 | two engines that took the same two requests in opposite orders could wait for each other, and then no order fits both: the premise of NeverStuck is needed |
| LogView.OpenedIsWindow | apps/web/lib/fleet-log-view.ts:30-42 | an opened view is exactly the matching lines of the page's interval, at the end of the log, with the page's flags |
| LogView.LaterIsWindow | apps/web/lib/fleet-log-view.ts:45-62 | a forward page: the rows become the last of the matching lines from the old head to the page's cursor, all of them or as many as the limit lets; the head moves only past what is evicted, and the tail, the flags and the search are the page's |
| LogView.EarlierIsWindow | apps/web/lib/fleet-log-view.ts:65-82 | a backward page: the rows become the first of the matching lines from the page's cursor to the old tail, all of them or as many as the limit lets; the tail moves only before what is evicted, and the head, the flags and the search are the page's |
| LogView.LaterKeepsPage | apps/web/lib/fleet-log-view.ts:45-50 | the page's own filter drops none of its rows, and rows and page together are the slice up to the new cursor |
| LogView.GrownIsWindow | apps/web/lib/fleet-log-view.ts:45-82 | a view stays the slice it is while the log grows |
| LogView.WindowAscends | apps/web/lib/fleet-log-view.ts:24-82 | rows ascend and do not overlap |
| LogView.MatchingSplit | apps/web/lib/fleet-log-view.ts:45-82 | adjoining intervals hold together what their union holds, so no later page skips or repeats a line |
| LogView.AlwaysTheSlice | apps/web/lib/fleet-log-view.ts:30-82 | after any sequence of openings, forward and backward pages and growth the rows are the slice between the cursors, at most the limit of them |
| LogViewer.RunsOneAtATime | apps/web/lib/fleet-log-viewer.ts:67-104 | in every run at most one page request is in flight, asked at most four times |
| LogViewer.GrowthIsFollowed | apps/web/lib/fleet-log-viewer.ts:91-116 | a recorded notice stays on record in every step but the answer that ends the running request, and then a new forward request from the tail is made, unless follow is off or the view is gone |
| LogViewer.NoticeIsFollowed | apps/web/lib/fleet-log-viewer.ts:91-148 | over every run a growth notice taken while follow is on is recorded if a task runs, else asks forward at once if there is a view; and a recorded one is still on record or some later step has made a forward request for it, unless follow was off or the view gone then |
| LogViewer.StepShowsSlice | apps/web/lib/fleet-log-viewer.ts:57-166 | no event makes the rows differ from the slice between the cursors, and the request in flight always fits the view it will be merged into |
| LogViewer.RunShowsSlice | apps/web/lib/fleet-log-viewer.ts:57-166 | the same over every run on a growing log |
| LogViewer.PageIsShown | apps/web/lib/fleet-log-viewer.ts:107-137 | an opening page replaces the view; any other page is merged without loss at the end of the view it was asked for, but for what the limit evicts at the other end |
| LogViewer.RequestIsSent | apps/web/lib/fleet-log-viewer.ts:91-137 | a request made while none runs asks at once for the page it is about (the end of the log, before the head unless that is the start, after the tail, or on in the direction of the last empty page); while one runs, or after disposal, it changes nothing |
| LogViewer.JumpOpensAnew | apps/web/lib/fleet-log-viewer.ts:150-154 | a jump drops the view, follows and opens anew; follow is as it was last set |
| LogViewer.RetriesThreeTimes | apps/web/lib/fleet-log-viewer.ts:67-89 | a request refused for asking too often waits and is asked again three times, and the fourth refusal fails it |
| LogViewer.FailureIsTold | apps/web/lib/fleet-log-viewer.ts:83-87 | a log that is gone empties the view and ends the following; any other failure is told and leaves the view |
| LogViewer.FollowMovesOn | apps/web/lib/fleet-log-viewer.ts:107-116 | a page that answers the follow loop takes the tail to its cursor; the loop ends exactly when the page is at the end, brings it no further, is empty under a filter, or follow is off, and a page at the end leaves the tail at the end of the log; else the next request starts strictly later |
| LogViewer.FollowEnds | apps/web/lib/fleet-log-viewer.ts:63-116 | on a log that does not grow the follow loop ends: pages, refusals for asking too often and the waits after them leave it asking on at most seven times for each place left in the log and six times more |
| LogViewer.LogViewer.Exclusive | apps/web/lib/fleet-log-viewer.ts:91-95 | the body up to the first request is one step |
| LogViewer.LogViewer.Finally | apps/web/lib/fleet-log-viewer.ts:97-103 | the end of a task and the follow-up of a noticed growth are one step |
| LogViewer.LogViewer.OnGrowth | apps/web/lib/fleet-log-viewer.ts:139-148 | a growth notice is one step |
| LogViewer.LogViewer.JumpToLatest | apps/web/lib/fleet-log-viewer.ts:150-154 | a jump is one step |
| LogViewer.LogViewer.OnFollowPage | apps/web/lib/fleet-log-viewer.ts:107-116 | one turn of the follow loop is one step |
| ConfigDraft.OpStands | apps/web/lib/nax-config.ts:38-71 | an edit, creation, deletion or discard on the overlay is the same operation on the plain file map it stands for |
| ConfigDraft.OpsStand | apps/web/lib/nax-config.ts:38-71 | so is any sequence of them |
| ConfigDraft.EditsGiveTheFiles | apps/web/lib/nax-config.ts:85-92 | after any sequence on one base, the edits applied to the base give the files the operations describe, and the base version is null exactly for paths absent from the base |
| ConfigDraft.FlaggedExactlyWhenMoved | apps/web/lib/nax-config.ts:160-173 | a reapplied edit keeps its text and is flagged exactly when the file is not at the version it was made against; it is dropped exactly when refused, already gone, or already so |
| ConfigDraft.ConflictIsHeld | apps/web/lib/nax-config.ts:38-76 | a file in conflict stays in the draft, flagged and at its base version, through every operation but its resolution, deletion or discarding; a resolution clears its flag and changes nothing else |
| ConfigDraft.CreatedExactlyWhen | apps/web/lib/nax-config.ts:48-60 | a file is created exactly where the path is allowed; no other path is touched and the flag stays as it was |
| ConfigDraft.ReapplyIsIdentityExactlyWhen | apps/web/lib/nax-config.ts:176-181 | reapplying a conflict-free draft's edits on its own base gives the draft back exactly when its paths are allowed and the base texts were loaded |
| ConfigDraft.DraftedReapplies | apps/web/lib/nax-config.ts:176-181 | the same for every draft that operations on one base can make |
| ConfigDraft.CrLfComesBack | apps/web/lib/nax-config.ts:33-46 | text whose line ends are all CRLF comes back from the editor unchanged |
| ConfigDraft.TypedTextTakesEndings | apps/web/lib/nax-config.ts:34-36 | what is typed into a file with pairs takes pairs throughout and reads back as it was typed; into any other file it goes as it is |
| ConfigDraft.UneditedStaysExactlyWhenUniform | apps/web/lib/nax-config.ts:33-46 | opening and leaving a file adds no edit exactly when its line endings are uniform |
| ConfigDraft.MixedEndingsTurnUpModified | apps/web/lib/nax-config.ts:33-46 | a concrete file with mixed line endings that turns up as modified though nobody edited it |
| Citations.OwnerBefore | apps/web/lib/thread-markdown.ts:169-179 | the longest owner/name a colon closes inside the region, or none only when there is none, walking no further back than a character it cannot pass |
| Citations.CitationSplit | apps/web/lib/thread-markdown.ts:155-166 | the leftmost owner/name:path of the region, or none only when there is none, in a number of steps linear in the region |
| Citations.DocCitationAt | apps/web/lib/thread-markdown.ts:116-146 | the citation whose hash follows this `@`, or none exactly when there is no hash or no split; nothing before the previous `@` or past the next one is looked at |
| Citations.DocCitations | apps/web/lib/thread-markdown.ts:106-113 | every citation of the text in order, one for each `@` that has one, in at most 20 steps a character and one more |
| Citations.StartDecidesSplit | apps/web/lib/thread-markdown.ts:148-166 | where a citation starts decides where it is cut |
| Citations.CitationUnique | apps/web/lib/thread-markdown.ts:116-146 | an `@` has at most one citation |
| Citations.FoundUnique | apps/web/lib/thread-markdown.ts:106-113 | a text has one list of citations |
| Citations.HrefIsSafe | apps/web/lib/thread-markdown.ts:58-59 | no character of a citation's address needs an escape in a quoted attribute |
| Citations.HrefReadsBack | apps/web/lib/thread-markdown.ts:136-141 | read back as the site's addresses are, the address says the owner, the name, the hash, the path and the fragment as they stand in the text |
| HtmlTokens.TagEnd | apps/web/lib/thread-markdown.ts:226-254 | the first position that closes the tag when quoted values, comments and declarations are read character by character, or none only when none does |
| HtmlTokens.ElementEnd | apps/web/lib/thread-markdown.ts:240-253 | jumping from quote to quote finds the first `>` outside every quoted value |
| HtmlTokens.Tokenize | apps/web/lib/thread-markdown.ts:260-286 | the tokens put together are the input, each is a whole tag or a text run in which no `<` opens a tag, and no two text runs touch |
| HtmlTokens.CutsAreUnique | apps/web/lib/thread-markdown.ts:256-286 | there is one such cut of a fragment |
| Weaving.EraseGivesBack | apps/web/lib/thread-markdown.ts:197-216 | a fragment with anchors put in gives the fragment back when they are taken out |
| Weaving.NeverNest | apps/web/lib/thread-markdown.ts:197-216 | anchors put in never nest, and each is closed before the next one opens |
| Weaving.SpelledPart | apps/web/lib/thread-markdown.ts:308-339 | putting anchors into a token and joining the tokens is putting them, shifted, into the whole fragment |
| MarkdownLinks.LinkifyText | apps/web/lib/thread-markdown.ts:197-216 | the output is the text run with anchors around the linked occurrences |
| MarkdownLinks.LinkedExactly | apps/web/lib/thread-markdown.ts:197-216 | linked are exactly the standalone occurrences, save those that start inside an earlier one taken |
| MarkdownLinks.TakenFits | apps/web/lib/thread-markdown.ts:199-208 | occurrences taken never overlap |
| MarkdownLinks.TakenCovers | apps/web/lib/thread-markdown.ts:199-208 | an occurrence is dropped only if it starts inside one taken, linked or not |
| MarkdownLinks.AllCitations | apps/web/lib/thread-markdown.ts:192-194 | all occurrences of a run, by where they start |
| MarkdownLinks.SafeStays | apps/web/lib/thread-markdown.ts:181-183 | the escape leaves a safe address as it is |
| MarkdownLinks.EscapeReadsBack | apps/web/lib/thread-markdown.ts:181-183 | an escaped value holds no quote and no angle bracket, and reads back as the value |
| MarkdownRewrite.LinkifyPaths | apps/web/lib/thread-markdown.ts:301-340 | the output is the fragment with exactly the anchors the stack lets through: the linked occurrences of each text run that does not start with `<` where no `a`, `pre` or `code` is on the stack, and one around each code span whose text is one occurrence where no `a` or `pre` is |
| MarkdownRewrite.OnlyInserts | apps/web/lib/thread-markdown.ts:301-340 | the rewrite only inserts: erasing the anchors gives the fragment back, and added anchors never nest |
| MarkdownRewrite.NoneInsideLink | apps/web/lib/thread-markdown.ts:308-334 | no anchor is added where the stack holds an `a` or a `pre`, and each lies in one text run or around one code span |
| MarkdownRewrite.RewriteIsDetermined | apps/web/lib/thread-markdown.ts:301-340 | those conditions leave one output |
| TagDepth.TagReads | apps/web/lib/thread-markdown.ts:288-292 | on a whole tag the tag reader finds the name, the closing slash and the self-closing end that stand right after `<` or `</` |
| TagDepth.AgreeExactlyWhen | apps/web/lib/thread-markdown.ts:301-340 | the stack counts what is really open by the whole tags of the fragment, before every piece, exactly when no text run is read as a tag that opens something or closes something open |
| TagDepth.NoneInsideOpenLink | apps/web/lib/thread-markdown.ts:301-340 | while no text run is read as the closing tag of an open link or fenced block, no anchor is added inside a link or a fenced block that is really open |
| TagDepth.NeverInsideExactlyWhen | apps/web/lib/thread-markdown.ts:301-340 | whatever is found in the text, no anchor is added inside a really open link or fenced block, exactly for the fragments in which every piece the stack lets through is really outside |
| TagDepth.AlwaysRightExactlyWhen | apps/web/lib/thread-markdown.ts:301-340 | whatever is found in the text, the anchors are those the whole tags of the fragment call for, exactly for the fragments in which the stack and the whole tags let the same pieces through |
| TagDepth.RewriteIsRight | apps/web/lib/thread-markdown.ts:301-340 | when no text run starts with `<` the rewrite adds exactly the anchors the whole tags of the fragment call for |
| TagDepth.LooseEndTag | apps/web/lib/thread-markdown.ts:288-325 | a concrete fragment whose text run reads as `</a>` and whose next text gets an anchor inside the open link |
| TagDepth.AlternateExactlyWhen | apps/web/lib/thread-markdown.ts:256-286 | the pieces of a fragment alternate between tags and text exactly when no less-than sign right after a tag opens another tag |
| TagDepth.TagsSideBySide | apps/web/lib/thread-markdown.ts:256-286 | a concrete cut in which two tags stand side by side |
| MarkdownRewrite.TakeOff | apps/web/lib/thread-markdown.ts:320-324 | a closing tag removes one open element of its name, if there is one |
| MarkdownRewrite.WholeLink | apps/web/lib/thread-markdown.ts:186-189 | the opening of the link of a text that is one occurrence as a whole, or none only when it is not |
| MarkdownRewrite.WholeExactly | apps/web/lib/thread-markdown.ts:186-190 | the opening found is that of the first occurrence that is the whole text |
| ThreadMerge.MergeMessages | apps/web/lib/thread-view.ts:30-52 | the three loops over the insertion-ordered map and the stable sort give the merge the lemmas below are about |
| ThreadMerge.MergeHolds | apps/web/lib/thread-view.ts:24-45 | a message is in the merge exactly when it is the expected one of its id: the answer's last, else the first held one that is no answered echo, with longer streamed content kept |
| ThreadMerge.MergeOrdered | apps/web/lib/thread-view.ts:46-51 | ids are unique, real messages are in seq order, local echoes come last |
| ThreadMerge.HeldStaysExactlyWhen | apps/web/lib/thread-view.ts:33-38 | a held message the answer does not have stays, unless it is the echo of a send whose message has arrived |
| ThreadMerge.EchoesKeepOrder | apps/web/lib/thread-view.ts:33-50 | the echoes that stay keep the order of their sends |
| ThreadMerge.MergeTwice | apps/web/lib/thread-view.ts:30-52 | merging the same answer again changes nothing, for any two lists |
| ThreadMerge.NeverShortens | apps/web/lib/thread-view.ts:39-45 | a message streaming on both sides keeps the longer content and takes everything else from the answer |
| ThreadMerge.DeltaSurvives | apps/web/lib/thread-view.ts:18-22 | text streamed into a message survives the merge of an answer read before it |
| ThreadMerge.DeltaGoesToItsMessage | apps/web/lib/thread-view.ts:18-22 | a delta is added to the message of its id and to no other; without one there is no result |
| ThreadMerge.CursorIsBelowFlight | apps/web/lib/thread-view.ts:55-61 | the cursor is right below the first real message in flight, else the last real message, else the beginning |
| ThreadMerge.HeldBefore | apps/web/lib/thread-view.ts:55-61 | what the refetch cursor leaves out is held as the server has it |
| ThreadMerge.RefetchGivesServer | apps/web/lib/thread-view.ts:55-61 | when the held real messages are a gap-free prefix whose settled ones match, merging the complete answer to the refetch gives the server's list, each streaming message with the longer content |
| ThreadMerge.RefetchIsServerExactlyWhen | apps/web/lib/thread-view.ts:55-61 | it is the server's list itself exactly when no message streaming on both sides is held longer |
| ThreadMerge.HeldAheadStays | apps/web/lib/thread-view.ts:39-45 | a concrete message held with more streamed text than the answer has, which the merge keeps |
| EventStream.AtMostOne | apps/web/lib/project-event-stream.ts:215-308 | in every run at most one of an open source, a refresh in progress and an armed timer, exactly one until the stream stops, and no source or timer after |
| EventStream.StoppedExactlyWhen | apps/web/lib/project-event-stream.ts:215-243 | a stream has stopped exactly when it was closed, a refresh was refused or not understood, or a source failed after five authorised recoveries since the last open |
| EventStream.StoppedMakesNothing | apps/web/lib/project-event-stream.ts:222-228 | a stopped stream opens, arms, delivers and resyncs nothing |
| EventStream.WaitIsBackoff | apps/web/lib/project-event-stream.ts:220-242 | an armed timer waits for the backoff of the recoveries begun since the last open |
| EventStream.BackoffDoubles | apps/web/lib/project-event-stream.ts:118-120 | the wait doubles from one second to the cap of thirty and stays there |
| EventStream.ResyncsAreReopenings | apps/web/lib/project-event-stream.ts:245-295 | the page is told to resync once for each opening that follows a failure, and at no other time |
| EventStream.DeliveredExactlyWhen | apps/web/lib/project-event-stream.ts:209-213 | an event is delivered exactly when its id is not among the last 200 accepted, so none comes twice within the window |
| EventStream.ProjectEventStream.constructor | apps/web/lib/project-event-stream.ts:197-207 | a new stream opens its first source |
| EventStream.ProjectEventStream.OnOpen | apps/web/lib/project-event-stream.ts:249-256 | an open source resets both counts and resyncs once after an error |
| EventStream.ProjectEventStream.OnMessage | apps/web/lib/project-event-stream.ts:257-260 | one delivery step |
| EventStream.ProjectEventStream.OnError | apps/web/lib/project-event-stream.ts:289-295 | one failure step: only a closed source is given up and recovered |
| EventStream.ProjectEventStream.OnRefreshed | apps/web/lib/project-event-stream.ts:222-242 | one recovery step by the outcome of the refresh |
| EventStream.ProjectEventStream.OnTimer | apps/web/lib/project-event-stream.ts:239-242 | one reopening step |
| EventStream.ProjectEventStream.CloseStream | apps/web/lib/project-event-stream.ts:301-307 | one closing step |
| EventHub.CallsKeep | apps/web/lib/project-event-hub.ts:20-56 | after any subscribes and unsubscribes the entries are the active subscriptions of each URL and the streams match them |
| EventHub.OneStreamPerUrl | apps/web/lib/project-event-hub.ts:35-53 | a URL has exactly one open stream if it has a subscriber and none otherwise; no other stream is open |
| EventHub.FanOutReachesEach | apps/web/lib/project-event-hub.ts:24-33 | the entries an event is handed to are the subscribers of its URL, oldest first |
| EventHub.EachReceivesItsOwn | apps/web/lib/project-event-hub.ts:24-53 | after any subscribes, unsubscribes, events and handed-on entries, in any order, every subscriber has received exactly the events of its URL whose walk began while it was subscribed, each once and in order, but for the one under way: who an earlier handler unsubscribes is still reached, who subscribes meanwhile is not |
| EventHub.SubscribeUndone | apps/web/lib/project-event-hub.ts:40-53 | an unsubscribe right after its subscribe undoes it, and calling it again does nothing |
| EventHub.ProjectEventHub.SubscribeTo | apps/web/lib/project-event-hub.ts:35-38 | one subscribing step |
| EventHub.ProjectEventHub.UnsubscribeFrom | apps/web/lib/project-event-hub.ts:41-53 | one unsubscribing step |
| EventHub.ProjectEventHub.FanOut | apps/web/lib/project-event-hub.ts:24-33 | the loop hands one event to each entry the URL had when it began, in order, whatever its handlers subscribe and unsubscribe on the way |
| EventHub.RunOn | apps/web/lib/project-event-hub.ts:24-53 | a walk that begins after some calls is one more stretch of a run, so what holds of every run holds of the loop |
| EventHub.ProjectEventHub.OpenStream | apps/web/lib/project-event-hub.ts:38 | the stream of a URL is opened unless it is there |

## Left out

- LogViewer.FollowEnds: for a log that does not grow and no growth notice pending, a notice starting another forward request; the other failures end the loop at once.
- MarkdownLinks.AllCitations: the ticket and job paths and outcome citations one regular expression finds are a parameter, taken only to be non-empty stretches of the text run.
- StoryLayout.LayoutStoryGraph: barycentre weights are exact quotients; rounding of the source's floating-point means is not modelled.
- AuditCoverage.AuditCoverage.NoteAuditWrite: which context a callback runs in is a parameter of each step, so the async storage itself is not modelled.
- TagDepth.AgreeExactlyWhen: a whole tag that ends in `/>` opens nothing, as in the code; where a parser would open an element there all the same, the count here does not.
- EventHub.ProjectEventHub.FanOut: a handler that throws, which ends the walk, is not modelled.
- Edge keys of the story graph are pairs; the separator the source joins them with is assumed not to occur in ids.
- The order `draftEdits` sorts by (`localeCompare`) is any order: every order of the paths is covered.
- The path allowlist, the decision parameters and the frozen input's hash: a reading of one function settles them.
- Effects of `prepare`, `withExecution` and `afterCommit` in other stores, which the code says are not rolled back.
- Expiry times and clocks: that a deadline has passed is a choice of the step.
- The order in which an instance's queue lets executions in is in SerialQueue; the engine's slot is only exclusive.
- Prisma repositories, HTTP controllers, module wiring, seeds and scripts.
- The Markdown renderer and the sanitizer around the link rewrite, and its final sanitizing pass.
- `thread-event-stream.ts`, which is the recovery machine of `project-event-stream.ts` again.
- Parsing of event payloads: an event arrives parsed, with its id.
- A log line longer than a page, which the read service cuts.
- SVG paths, stage labels, badges, date and byte formatting, and the page components.

# Verified models of the client's protocols and text algorithms

This project models the parts of the wiki in which state, time or text make mistakes likely, and proves what
they promise. Verify with `dafny verify dfyconfig.toml`.

- **Service-worker update round** (`UpdateRound`, `UpdateWorker`). Open pages vote on a reload and the worker
  commits with `skipWaiting()`. The protocol is a transition system with one step per message, timer and
  resumed await; the worker is a class whose methods refine those steps.
- **Precache install** (`Precache`, `PrecacheInstaller`, `PrecacheProgress`). Up to six slots drain the manifest
  into a cache and the completion marker comes last; the process may die at any step.
- **Live-note transport** (`LiveNote`, `LiveNoteClient`). An at-least-once sender with one request in flight, over
  sockets that may deliver late, against a server whose log is idempotent by request id.
- **History comparison renderer** (`HistoryDiff`, `HistoryDiffRenderer`, `LruCache`). Two caches, a replaceable
  worker, timeouts and shared jobs, all agreeing with one plain function.
- **Sequential algorithms**: the rendering planner (`RenderingPlan`), code fences and line ranges (`CodeFence`,
  `LineRanges`), the JSON completion cursor (`JsonCursor`), canonical base64 (`Base64`), in-place editing of HTML
  images (`AttributeText`, `ImageAttributes`, `ImageLens`, `ImageReadBack`, `SourceImage`, `Percentages`,
  `ImageProperties`, `ImageEditing`), glossary links (`Glossary`), discussion quotes (`QuoteAnchor`), the navigation
  menu (`NavigationMenu`) and the agent event stream (`RunStream`).

Beside each of them stand laws that do not mention its step or parser functions. For the protocols
(`UpdateChanges`, `PrecacheChanges`, `LiveNoteChanges`, `HistoryDiffChanges`, `RunStreamFrames`) they say of each part
of the state, over the events of a run, exactly when it changes and to what; for the algorithms (`PlanMeaning`,
`FenceMeaning`, `LineEntries`, `ImageGrammar`, `ImageMeaning`, `DimensionMeaning`, `GlossaryMeaning`, `QuoteMeaning`,
`MenuMeaning`) they characterise the result by the characters or items it came from.

`Basics`, `Decimal`, `Numerals`, `WhiteSpace`, `TextSplit` and `Sorting` hold shared vocabulary.

A class method that "refines" a step ends in exactly the state the specification function gives for the state it
began in; the theorems about runs are about that function.

Assumptions, each stated where it is used:

- Update round: client ids in one lookup are distinct, and a `skipWaiting()` that leads to activation does not also
  reject.
- Precache: one worker's lifecycle at a time, and a cache returns what was put until it is deleted, if it answers.
- Live notes: a new edit never reuses an id, and `onChange` does not call back into the transport.
- History comparison: a key identifies two texts, and the diff and markup libraries are deterministic.
- Rendering plan: module keys are unique.
- Images: the six references that escaping writes resolve to their characters, and lower-casing a lower-case name
  changes nothing.
- Percentages: rounding to a double is monotone and close, and a number is written with an exponent below 0.000001
  and otherwise so that it is read as the same number (section 6.1.6.1.20 of ECMA-262).

Seven promises are false in the code, and the project says exactly when:

- Reading patched image attributes again (`ImageReadBack.PatchReadsBack`) fails exactly when an attribute is appended
  behind one that ends the tag with an equals sign and no value; `ImageReadBack.OpenEndExample` is an instance.
- Finding a patched image again (`SourceImage.PatchedImageReadsBack`) fails, besides, exactly when the quote scan over
  the attributes, as they will be, ends inside a quote or meets the end of the tag; `ImageEditing.QuoteEditExample` is an
  instance.
- A dimension of a written image (`ImageProperties.ShownReadsBack`) does not survive exactly when it is a percentage
  whose number is below 0.000001; `ImageProperties.TinyExample` is an instance.
- A complete precache can be lost with none left (`Precache.LastLostExactlyWhen`) exactly when the install that marked
  the only one takes it back; `PrecacheProgress.FirstInstallLosesItsCache` is such a run.
- A captured quote is not found at its own place (`QuoteAnchor.RelocateExactly`) where the selected text is not in
  normal form, as `QuoteAnchor.AccentExample`, or where the filters keep another place, as
  `QuoteAnchor.ElsewhereExample`.
- A live event can be delivered twice (`RunStream.LiveRepeatsExactly`) exactly when its sequence comes twice on one
  connection; `RunStream.LiveCanRepeat` is an instance.
- A failed stream is not told (`RunStream.FailureIsTold`) exactly when the reset handler throws on the failure;
  `RunStream.SilentFailure` is an instance.

## Model

| member | source | states |
|---|---|---|
| UpdateRound.SkipWaitingIsConsented | client/service-worker.ts:565-604 | in every run, each skipWaiting follows a final lookup of the current round whose roster equals, ids and URLs, the one the round was opened with, and every client on it last said "safe" at the revision it named first; votes and revisions are read off the events, not off the maps |
| UpdateRound.SkipWaitingAtMostOncePerRound | client/service-worker.ts:599-604 | over any run no round calls skipWaiting twice |
| UpdateRound.NoLostWakeUp | client/service-worker.ts:565-621 | in every reachable state with an open, unstarted round and no check running, some roster client has not (or no longer) voted "safe" at its first revision |
| UpdateRound.ConsentCommits | client/service-worker.ts:565-621 | from any reachable state with a consenting roster, at most one settled check and two lookups of that roster commit the round |
| UpdateRound.NoCrossTalk | client/service-worker.ts:537-543 | a deadline, lookup, vote or settled check of one round changes no other round and neither the current round nor the intent of another |
| UpdateRound.RoundsOnlyGrow | client/service-worker.ts:637-650 | a roster never changes, a first-seen revision is never rewritten and `started` is never undone |
| UpdateRound.VotesAreLastWords | client/service-worker.ts:550-554 | the vote map of an open round holds exactly each client's last word since its port was opened, the revision map the first revision it named |
| UpdateRound.OpeningOf | client/service-worker.ts:630-651 | every round goes back to exactly the lookup that opened it |
| UpdateRound.OnlyLastAnswersSkip | client/service-worker.ts:584-604 | one step: only the answer of the second lookup of the current round, with equal roster and full consent, calls skipWaiting |
| UpdateChanges.RoundOpensExactly | client/service-worker.ts:630-651 | over runs and off the events: a round opens exactly when a lookup with no round open finds the asking client, one open tab included; it is then current, unstarted, unvoted, with its deadline armed and that lookup as its roster |
| UpdateChanges.RoundClosesExactly | client/service-worker.ts:537-548 | the open round ends, with every port, exactly when a voter changes its revision, a lookup of its check fails or finds another roster, its deadline fires, skipWaiting fails or the new worker has activated |
| UpdateChanges.PortsExactly | client/service-worker.ts:491-554 | which port each tab has after each event |
| UpdateChanges.AsksExactly | client/service-worker.ts:623-636 | which lookups of a preparation request are under way after each event |
| UpdateChanges.RoundRunsExactly | client/service-worker.ts:565-621 | started flag, phase of the check and its repeat latch of each round after each event |
| UpdateChanges.CommitsExactly | client/service-worker.ts:584-610 | both directions: skipWaiting is called if and only if the last lookup finds the opening roster with everybody safe at the first revision; when the intent is remembered and forgotten |
| UpdateChanges.DeadlineGuardsOpenRound | client/service-worker.ts:600-654 | in every reachable state exactly an open, unstarted round has its deadline armed |
| UpdateRound.SameRosterIsEquality | client/service-worker.ts:529-535 | the loop over length and URLs decides equality of the two rosters as maps, when client ids are unique |
| UpdateRound.StepKeepsInv | client/service-worker.ts:537-694 | every message, lookup answer, timer and lifecycle event keeps the round invariant |
| UpdateWorker.PreparationRound.SameRosterAs | client/service-worker.ts:529-535 | the roster loop computes the comparison that SameRosterIsEquality explains |
| UpdateWorker.PreparationRound.AllConsent | client/service-worker.ts:592-595 | the vote loop finds out whether every listed client is safe at its first revision |
| UpdateWorker.Worker.ScopedClients | client/service-worker.ts:491-500 | after a lookup exactly the ports of listed clients at the same URL are left; a failed lookup leaves all |
| UpdateWorker.Worker.DeferRound | client/service-worker.ts:537-548 | refines the protocol step that ends the current round and closes all ports, and does nothing for another round |
| UpdateWorker.Worker.ConnectUpdatePort | client/service-worker.ts:550-554 | refines the connect step: the vote goes, the port is replaced |
| UpdateWorker.Worker.SchedulePreparationCheck | client/service-worker.ts:565-573 | refines the scheduling step with its checking/checkAgain latch |
| UpdateWorker.Worker.ResumeFirstLookup | client/service-worker.ts:573-584 | refines the step after the first await |
| UpdateWorker.Worker.ResumeFinalLookup | client/service-worker.ts:584-604 | refines the step after the second await, up to and including skipWaiting |
| UpdateWorker.Worker.SkipSettled | client/service-worker.ts:603-610 | refines what happens when skipWaiting resolves or rejects |
| UpdateWorker.Worker.CheckFinally | client/service-worker.ts:611-618 | refines the `finally` block and the check it may start again |
| UpdateWorker.Worker.PreparationDeadline | client/service-worker.ts:652-654 | refines the deadline timer |
| UpdateWorker.Worker.StartPreparation | client/service-worker.ts:623-630 | refines the part of a preparation request before its await |
| UpdateWorker.Worker.ResumePreparation | client/service-worker.ts:630-651 | refines the part behind the await; the rounds that exist stay |
| UpdateWorker.Worker.AcceptSafetyVote | client/service-worker.ts:666-694 | refines the vote step with every guard, including the revision change that defers the round |
| UpdateWorker.Worker.ActivateResume | client/service-worker.ts:730-736 | refines the activation step that remembers the intent |
| UpdateWorker.Worker.ActivateNotify | client/service-worker.ts:737-747 | refines the last activation step, which drops round, intent and ports |
| Precache.MarkerMeansServable | client/service-worker.ts:260-275 | at every step of every run, crashes included, a completion marker means that every URL of the closure is cached with bytes that passed validation |
| Precache.OnceCompleteAlwaysComplete | client/service-worker.ts:277-294 | once some owned cache is published, that is complete and not being confirmed or taken back by its own install, install, clean-up, retirement and crashes always leave a published one |
| Precache.LostExactlyWhen | client/service-worker.ts:277-407 | a complete cache stops being complete in exactly two kinds of step: its own install takes it back, or a retirement deletes it while another complete one stays |
| Precache.LastLostExactlyWhen | client/service-worker.ts:382-407 | the last complete owned cache goes exactly when the install that has just marked it takes it back |
| Precache.OnlyUndoingLosesAll | client/service-worker.ts:382-396 | over any run: where some owned cache was complete and later none is, an install has taken back its own cache in between, and it was the only complete one |
| PrecacheProgress.FirstInstallLosesItsCache | client/service-worker.ts:382-396 | the plain promise is false: in every world in which the release can be fetched there is a run of a first install that writes its marker, fails to read it back, and goes from one complete cache to none |
| PrecacheProgress.InstallPublishes | client/service-worker.ts:328-396 | in every run, from where an install has begun and as long as storage and network answer well, in whatever order: it never fails or takes anything back; once storage has listed its caches it ends within a bound known by then; and it is over, with its cache published, exactly where no good answer can come any more |
| PrecacheProgress.GoodStep | client/service-worker.ts:277-393 | each good answer, clean-up and wipe included, keeps the install on its course and leaves strictly less to do |
| PrecacheProgress.CanGoOn | client/service-worker.ts:328-393 | an install that is not over always waits for something a working store or network can answer |
| Precache.ConfirmationPublishes | client/service-worker.ts:382-396 | an install that ends well has published its own cache |
| Precache.OneSlotPerEntry | client/service-worker.ts:345-377 | no two of the at most six slots ever hold the same manifest entry, and the slot holding it is the one that claimed it |
| Precache.OnlySlotsWrite | client/service-worker.ts:368-377 | an asset changes only by the put of a slot that has not left the loop: no write outlives the drain |
| Precache.DrainedPoolIsFull | client/service-worker.ts:377-378 | when all slots have left without a failure every entry is cached |
| Precache.ClosureTestSucceeds | client/service-worker.ts:379-381 | the closure test fails only if the store loses what it took |
| Precache.PoolWorkDrops | client/service-worker.ts:349-373 | every claim, answer and write, good or bad, brings the drain closer |
| Precache.StepKeepsInv | client/service-worker.ts:328-407 | every step of install, activation clean-up and retirement keeps the storage invariant |
| Precache.StepKeepsPublished | client/service-worker.ts:398-407 | a published cache stays published in every step but a retirement, which leaves another published |
| PrecacheChanges.InstallEndsExactly | client/service-worker.ts:342-396 | from every reachable state of an install that began to empty its cache: it is over exactly by a crash, by confirming a complete cache, or by undoing, where the cache is gone unless storage refuses; and it turns to undoing exactly on one of the named failures |
| PrecacheChanges.InstallIsSettled | client/service-worker.ts:342-396 | over runs: an install that began to empty its cache and is over without a crash has published the cache or undone it |
| PrecacheChanges.InstallGoesOn | client/service-worker.ts:344-393 | as long as nothing fails: wiping, six slots or fewer, every entry looked up, then the marker, then its confirmation |
| PrecacheChanges.PoolExactly | client/service-worker.ts:345-373 | what a claim, a fetch and a put do to claims, slots and failure flag; nothing that fails its checks is put |
| PrecacheChanges.StorageExactly | client/service-worker.ts:277-407 | the contents of every cache after each event |
| PrecacheChanges.DeletedExactly | client/service-worker.ts:277-407 | over runs, a cache disappears exactly in a clean-up that found no metadata, its own undoing, or a retirement behind another complete cache |
| PrecacheChanges.CleanUpExactly | client/service-worker.ts:277-294 | clean-up visits the listed names one by one, deletes an owned orphan, skips a name whose operation fails, and then goes on to its purpose |
| PrecacheChanges.PhasesExactly | client/service-worker.ts:328-407 | over runs, what begins, empties, retires and ends a lifecycle, and which caches a retirement is still to delete |
| PrecacheInstaller.PrecacheEntries | client/service-worker.ts:150-160 | the entry loop keeps the first occurrence of each resolvable URL, in order, without repetition |
| PrecacheInstaller.SlotPool.ClaimNext | client/service-worker.ts:349-350 | refines the claim step on the shared index |
| PrecacheInstaller.SlotPool.Fetched | client/service-worker.ts:351-367 | refines the step that fetches and validates |
| PrecacheInstaller.SlotPool.PutDone | client/service-worker.ts:368-372 | refines the step that stores |
| PrecacheInstaller.SlotPool.Drain | client/service-worker.ts:345-378 | whatever the answers and their order, the drain ends with every slot out of its loop, and without a failure every URL of the closure is cached with valid bytes |
| PrecacheInstaller.StorageSweeper.CleanupIncomplete | client/service-worker.ts:277-294 | the loop takes the steps of the protocol; of the listed, owned, readable names exactly those with metadata and those that could not be deleted are left, a name that had gone is created by opening it and deleted again, and no other cache changes |
| PrecacheInstaller.StorageSweeper.RetireOld | client/service-worker.ts:398-407 | the loop takes the steps of the protocol; exactly the other owned caches that could be deleted are gone, and none if the current one is incomplete |
| LiveNote.NoEditLost | client/helpers/live-note-collaboration.ts:83-93 | in every run every local edit is pending or durable at the server, `pending` is the tail of the edit history, and the server's first-time applications are a prefix of it |
| LiveNote.NothingUndone | client/helpers/live-note-collaboration.ts:94-98 | edit history, durable log, stored revision and document only grow |
| LiveNote.SendsOnlyWhenAllowed | client/helpers/live-note-collaboration.ts:168-190 | whenever an update goes on a wire it is the oldest pending edit, alone in flight, on the live socket of the newest epoch, of a current, authorised, synced, editable, unblocked client that is not oversized |
| LiveNote.AtMostOneLiveSocket | client/helpers/live-note-collaboration.ts:100-122 | at most one socket is live, it is the newest epoch's, at most one request is in flight and it is the oldest, and at most one timer is armed |
| LiveNote.BlockedForever | client/helpers/live-note-collaboration.ts:221-232 | `blocked` is absorbing and nothing is sent from it |
| LiveNoteChanges.BlockedExactly | client/helpers/live-note-collaboration.ts:83-232 | over runs: an unblocked note is blocked if and only if it is told to, its live socket is closed with a refusal, a message on it is broken or about another note, the session of the current epoch is denied, or an edit is too large or made under another account |
| LiveNoteChanges.ConnectsExactly | client/helpers/live-note-collaboration.ts:100-245 | connection state, epoch, socket, session, timer and account after each event |
| LiveNoteChanges.TextExactly | client/helpers/live-note-collaboration.ts:83-147 | queue, document, revision and permission after each event |
| LiveNoteChanges.SendsExactly | client/helpers/live-note-collaboration.ts:168-190 | what each socket holds after each event: the oldest edit goes out if and only if an edit or message comes in and every gate is open, and which sockets the client closes |
| LiveNoteChanges.CommitsExactly | server/core/live-note-collaboration.ts:288-303 | the server applies an update exactly when it first commits, whatever becomes of the answer |
| LiveNote.Converged | client/helpers/live-note-collaboration.ts:126-147 | with nothing pending, a message with the server's document makes both documents equal and holds every edit |
| LiveNote.BacklogDrains | client/helpers/live-note-collaboration.ts:137-147 | from a healthy connection a backlog of any length reaches the server, in order, in twice as many steps |
| LiveNote.Recovers | client/helpers/live-note-collaboration.ts:100-158 | from whatever unblocked, signed-in state five steps lead to a healthy connection, with every edit kept |
| LiveNote.BacklogCanDrain | client/helpers/live-note-collaboration.ts:100-190 | in every state of every run in which the note is neither blocked nor left, five steps and two per pending edit bring every edit to the server, in order |
| LiveNote.AckDropsHead | client/helpers/live-note-collaboration.ts:138-141 | an acknowledged id is the head of the queue or already gone |
| LiveNote.AlwaysSound | client/helpers/live-note-collaboration.ts:168-245 | transport and durability invariants hold in every state of every run |
| LiveNote.StepKeepsTransport | client/helpers/live-note-collaboration.ts:100-245 | whatever server and network do, each step keeps the transport invariant |
| LiveNote.StepKeepsDurable | client/helpers/live-note-collaboration.ts:83-190 | each step keeps the durability invariant, late deliveries from old sockets included |
| LiveNote.ApplyDurable | server/core/live-note-collaboration.ts:288-305 | what arrives on any socket is a duplicate or exactly the next edit |
| LiveNoteClient.LiveNoteCollaboration.OnChanged | client/helpers/live-note-collaboration.ts:83-93 | refines the protocol step for a local edit, oversized and signed-out cases included |
| LiveNoteClient.LiveNoteCollaboration.AcceptNote | client/helpers/live-note-collaboration.ts:94-99 | refines the merge of a server note |
| LiveNoteClient.LiveNoteCollaboration.ConnectTransport | client/helpers/live-note-collaboration.ts:100-116 | refines the part of connect before the session answer |
| LiveNoteClient.LiveNoteCollaboration.ResumeSession | client/helpers/live-note-collaboration.ts:116-167 | refines the part behind it, refusals and stale epochs included |
| LiveNoteClient.LiveNoteCollaboration.OnMessage | client/helpers/live-note-collaboration.ts:126-151 | refines the message handler |
| LiveNoteClient.LiveNoteCollaboration.OnClose | client/helpers/live-note-collaboration.ts:152-158 | refines the close handler |
| LiveNoteClient.LiveNoteCollaboration.FlushPending | client/helpers/live-note-collaboration.ts:168-190 | the loop over the pending map sends what the protocol step sends |
| LiveNoteClient.LiveNoteCollaboration.ReconnectLater | client/helpers/live-note-collaboration.ts:191-201 | refines the back-off step |
| LiveNoteClient.LiveNoteCollaboration.SetAuthorizationReady | client/helpers/live-note-collaboration.ts:203-220 | refines the authorisation fence |
| LiveNoteClient.LiveNoteCollaboration.BlockTransport | client/helpers/live-note-collaboration.ts:221-232 | refines blocking |
| LiveNoteClient.LiveNoteCollaboration.DestroyTransport | client/helpers/live-note-collaboration.ts:236-244 | refines disposal |
| HistoryDiff.RepliesAreUncached | client/helpers/history-diff-client.ts:156-222 | for every interleaving of answers, errors, timeouts and disposal, a ready, empty or limit result a caller sees is what the uncached engine computes for its request |
| HistoryDiffChanges.ToldMeaning | client/helpers/history-diff-engine.ts:18-57 | over runs and the libraries alone: markup told is the markup of the patch from source to target with at most 4000 lines, matched by line up to 200; "empty" means equal texts; "limit" means unequal ones beyond a bound, or no patch in time |
| HistoryDiffChanges.CountLinesMeaning | client/helpers/history-diff.ts:41-50 | an empty text has no line, any other one more than it has line breaks |
| HistoryDiffChanges.RepliesExactly | client/helpers/history-diff-client.ts:80-222 | when each call is answered and with what: by the cache, the two shortcuts, its job, a timeout, a failure or disposal |
| HistoryDiffChanges.JobsExactly | client/helpers/history-diff-client.ts:109-190 | workers, pending jobs, timers and shared jobs after each event |
| HistoryDiffChanges.RemembersExactly | client/helpers/history-diff-client.ts:68-78 | which outcome is remembered under which key after each event |
| HistoryDiffChanges.CompareRemembers | client/helpers/history-diff-engine.ts:59-76 | the engine keeps the patch of its last six keys, newest last |
| HistoryDiff.CachesStayTrue | client/helpers/history-diff-client.ts:68-78 | the outcome cache holds at most eight entries, all equal to the uncached results, never a timeout or a failure; the patch cache of every worker and of the main thread at most six |
| HistoryDiff.NoTwoPendingShareAKey | client/helpers/history-diff-client.ts:168-189 | no two pending jobs have the same cache key |
| HistoryDiff.EachCallToldOnce | client/helpers/history-diff-client.ts:80-87 | what a caller was told never changes |
| HistoryDiff.WaitingEnds | client/helpers/history-diff-client.ts:173-178 | a waiting call has an armed timer and a job under way, and the timer ends the wait |
| HistoryDiff.CompareIsUncached | client/helpers/history-diff-engine.ts:59-77 | the engine with its patch cache answers like the engine without, and keeps the cache true and bounded |
| HistoryDiff.CacheKeyInjective | client/helpers/history-diff-client.ts:44 | the joined cache key determines key and format |
| HistoryDiff.SameKeySameAnswer | client/helpers/history-diff-client.ts:168-170 | joining a job in flight for the same key cannot give another answer |
| HistoryDiff.StepKeeps | client/helpers/history-diff-client.ts:54-222 | every event keeps caches, jobs, timers and callers in agreement |
| HistoryDiffRenderer.CountTextLines | client/helpers/history-diff.ts:41-50 | the search loop counts line breaks plus one, and nothing for the empty text |
| HistoryDiffRenderer.Evict | client/helpers/history-diff-client.ts:73-77 | the eviction loop leaves the newest entries |
| HistoryDiffRenderer.HistoryDiffEngine.CompareTexts | client/helpers/history-diff-engine.ts:61-76 | the stateful engine answers as the uncached functions do |
| HistoryDiffRenderer.Renderer.SettleJob | client/helpers/history-diff-client.ts:80-87 | refines settling, which does nothing for a job no longer pending |
| HistoryDiffRenderer.Renderer.StopCurrentWorker | client/helpers/history-diff-client.ts:89-96 | refines the stop loop: every pending job is settled |
| HistoryDiffRenderer.Renderer.RenderRequest | client/helpers/history-diff-client.ts:193-215 | refines the render step with all its shortcuts |
| HistoryDiffRenderer.Renderer.OnMessage | client/helpers/history-diff-client.ts:122-131 | refines the message handler; a stale worker is ignored |
| HistoryDiffRenderer.Renderer.OnError | client/helpers/history-diff-client.ts:132-150 | refines the error handler in both of its cases |
| HistoryDiffRenderer.Renderer.OnTimeout | client/helpers/history-diff-client.ts:173-177 | refines the job timer |
| HistoryDiffRenderer.Renderer.OnInlineFinished | client/helpers/history-diff-client.ts:98-106 | refines what happens when the engine of the page thread answers, or fails to load |
| HistoryDiffRenderer.Renderer.OnSettled | client/helpers/history-diff-client.ts:180-183 | refines the release of the shared job |
| HistoryDiffRenderer.Renderer.DisposeRenderer | client/helpers/history-diff-client.ts:216-220 | refines disposal |
| LruCache.CachedIffRecent | client/helpers/history-diff-client.ts:68-78 | a key is cached exactly when it was used and fewer than the capacity of other keys were used since |
| LruCache.TouchFollowsOrder | client/helpers/history-diff-client.ts:71-77 | evicting at once or never makes no difference to the order of the newest keys |
| LruCache.TouchMeaning | client/helpers/history-diff-engine.ts:62-73 | the size bound holds, the touched pair is newest, nothing is invented |
| RenderingPlan.BuildRenderingPlan | shared/rendering-policy.ts:38-53 | refuses exactly when a format cycle is reachable from the content type, and otherwise gives each reachable enabled core once in topological order with its children; it terminates |
| RenderingPlan.FinishOrderIsComplete | shared/rendering-policy.ts:41-48 | a finish order with every start core holds exactly the reachable cores, and proves that there is no cycle |
| RenderingPlan.ChildrenRunOnce | shared/rendering-policy.ts:50-51 | before and after together hold each enabled child of a core exactly once |
| RenderingPlan.StageMeaning | shared/rendering-policy.ts:51 | who runs before and after, and in which order, ties included |
| PlanMeaning.PlanExactly | shared/rendering-policy.ts:39-48 | which modules a plan holds and what stands before what, over the modules alone |
| PlanMeaning.CycleExactly | shared/rendering-policy.ts:41-47 | the planner refuses exactly where a walk from the content type comes back to a module on it |
| PlanMeaning.BeforeExactly | shared/rendering-policy.ts:50-51 | the children before a core are those at the places that qualify, in the sequence of the list |
| PlanMeaning.AfterExactly | shared/rendering-policy.ts:51 | the children behind it are those that qualify, by order and then by place |
| RenderingPlan.Planner.Visit | shared/rendering-policy.ts:41-47 | the recursive visit finishes everything reachable or returns a walk that closes a loop |
| CodeFence.ParseMarkdownCodeFences | shared/markdown-code-fence.ts:88-126 | there are line spans for the fences such that a fence is open after a line exactly when the incremental state, fed the same lines, is open; spans are ordered and disjoint, and each fence holds the marker, info and slice of its own span; the scan terminates |
| CodeFence.ScanIsUnique | shared/markdown-code-fence.ts:88-126 | only one list of fences and spans meets that contract, so the batch scan is determined by the incremental state |
| CodeFence.AdvanceInPlace | shared/markdown-code-fence.ts:78-86 | the incremental step on the text of a line decides what the scanner decides in place |
| CodeFence.MarkerMeaning | shared/markdown-code-fence.ts:42-63 | a marker is up to three spaces and a maximal run of three or more backticks or tildes (section 4.5 of CommonMark 0.31.2) |
| FenceMeaning.FencesExactly | shared/markdown-code-fence.ts:88-126 | a fence runs from a line that opens one, outside all others, to the first that closes it, character by character; no line outside opens one |
| FenceMeaning.OpensExactly | shared/markdown-code-fence.ts:92-102 | a line opens a fence by a run of tildes, or of backticks without one behind |
| FenceMeaning.ClosesExactly | shared/markdown-code-fence.ts:65-72 | a line closes it by a run of its marker, at least as long, with only blanks behind |
| FenceMeaning.LineMeaning | shared/markdown-code-fence.ts:33-40 | LF, CR and CR LF each end one line |
| CodeFence.LinesChain | shared/markdown-code-fence.ts:33-40 | the lines are consecutive and cover the source |
| CodeFence.MarkdownLineAt | shared/markdown-code-fence.ts:33-40 | the loop finds the line and always advances |
| CodeFence.FenceMarkerAt | shared/markdown-code-fence.ts:42-63 | the loops compute the marker that MarkerMeaning characterises |
| CodeFence.IsClosingFence | shared/markdown-code-fence.ts:65-72 | the loop decides whether the line closes the fence |
| CodeFence.FindClosing | shared/markdown-code-fence.ts:104-114 | the first later line that closes the fence, or none to the end |
| LineRanges.NormaliseMeaning | shared/markdown-code-fence.ts:149-170 | the result covers exactly the lines of the valid entries and is sorted with a gap of at least one line between ranges |
| LineEntries.HighlightedExactly | shared/markdown-code-fence.ts:149-170 | a line is highlighted exactly when an entry between commas means a range that holds it |
| LineEntries.EntryExactly | shared/markdown-code-fence.ts:25-157 | an entry means a range exactly by the shape of its characters: one numeral or two with a hyphen, white space around, none above the largest safe integer |
| LineRanges.CanonicalUnique | shared/markdown-code-fence.ts:160-169 | two such lists that cover the same lines are equal |
| LineRanges.RoundTrip | shared/markdown-code-fence.ts:172 | serialising a canonical list and parsing it again changes nothing |
| LineRanges.NormaliseIdempotent | shared/markdown-code-fence.ts:149-172 | normalising twice is normalising once |
| LineRanges.MergeMeaning | shared/markdown-code-fence.ts:160-169 | merging a sorted list covers the same lines |
| LineRanges.ParseLineRanges | shared/markdown-code-fence.ts:149-170 | the loops compute the normal form |
| LineRanges.ShowRoundTrip | shared/markdown-code-fence.ts:143-157 | one serialised range parses to itself |
| Sorting.SortMeaning | shared/markdown-code-fence.ts:159 | sorting with a weak order gives a sorted rearrangement |
| Sorting.SortStable | shared/rendering-policy.ts:51 | tied elements keep their sequence |
| Sorting.StrictUnique | client/helpers/editor-image-source.ts:47 | without ties there is one way to arrange a set of elements |
| JsonCursor.CursorIsRight | client/helpers/editor-source-authoring.ts:87-152 | on every proper prefix of an object-rooted JSON text (sections 4, 5 and 7 of RFC 8259): the path is the enclosing member names, `used` the names already read in the innermost container, and `key` is true exactly where a member name may stand; `from`, prefix, field and root key too |
| JsonCursor.FinishedTextHasNoCursor | client/helpers/editor-source-authoring.ts:95-98 | a complete object, empty or not, offers nothing, whatever white space follows |
| JsonCursor.FindCursor | client/helpers/editor-source-authoring.ts:88-152 | the index loop with its stack computes the scan that CursorIsRight is about |
| JsonCursor.SkipString | client/helpers/editor-source-authoring.ts:101-105 | the loop finds the first quote that is not escaped |
| JsonCursor.SkipAtom | client/helpers/editor-source-authoring.ts:143-144 | the loop finds the end of a number or literal name |
| JsonCursor.ScanValue | client/helpers/editor-source-authoring.ts:99-149 | reading any whole value leaves its container waiting for a comma and everything below it as it was |
| JsonCursor.ScanMembers | client/helpers/editor-source-authoring.ts:137-142 | reading the members of an object and its brace removes it from the stack |
| JsonCursor.RootKeyIsRoot | client/helpers/editor-source-authoring.ts:130 | nothing inside a nested object can set the root key |
| Base64.DecodeInvertsEncode | shared/collaboration.ts:81-108 | decoding inverts encoding for 1 to maxBytes bytes |
| Base64.AcceptedIsCanonical | shared/collaboration.ts:90-108 | exactly the texts that are canonical by section 3.5 of RFC 4648 and stand for 1 to maxBytes bytes are accepted, each as the encoding of its bytes |
| Base64.EncodingIsUnique | shared/collaboration.ts:104-106 | no bytes have two accepted texts |
| Base64.PreCheckIsSafe | shared/live-notes.ts:54-57 | the length check refuses only what the decoder refuses |
| Base64.PreCheckIsTight | shared/live-notes.ts:55 | an update of full size reaches the bound |
| Base64.DigitsSpellBits | shared/collaboration.ts:85-87 | the digits before the padding spell the bits of the bytes, filled up with zero bits (section 4 of RFC 4648) |
| Base64.PatternDecodes | shared/collaboration.ts:61 | after the pattern atob cannot fail, and the padding tells how many bytes it gives |
| Base64.EncodeCollaborationUpdate | shared/collaboration.ts:81-88 | the loop builds the text whose round trip is proved; sizes outside the bounds are refused |
| Base64.DecodeCollaborationUpdate | shared/collaboration.ts:90-108 | the checks in their order give the decoder whose accepted texts AcceptedIsCanonical names |
| AttributeText.DecodeInvertsEscape | client/helpers/editor-image-source.ts:24-29 | decoding takes back what escaping did, for every value |
| AttributeText.EscapeIsCharwise | client/helpers/editor-image-source.ts:27-29 | the six passes amount to replacing each character once |
| AttributeText.EscapedIsQuotable | client/helpers/editor-image-source.ts:27-29 | an escaped value holds nothing that ends a quoted value or a tag |
| ImageAttributes.HtmlAttributes | client/helpers/editor-image-source.ts:52-91 | the cursor loops compute the attributes, with their places, that the lens laws are about |
| ImageGrammar.PartsExactly | client/helpers/editor-image-source.ts:52-91 | the parts are the only way to tile the text into white space and attributes of the grammar; the parser gives up exactly where there is none |
| ImageGrammar.TokenExactly | client/helpers/editor-image-source.ts:60-88 | an attribute is read exactly where the characters have its shape: name, value quoted, unquoted or absent |
| ImageMeaning.ReferenceExactly | client/helpers/editor-image-source.ts:24 | decoding replaces exactly the whole character references |
| ImageMeaning.GetExactly | client/helpers/editor-image-source.ts:125 | the value of a name is that of its first attribute, or empty |
| ImageAttributes.PatchAttributes | client/helpers/editor-image-source.ts:93-107 | the loops build the edit list whose effect PatchedIsRebuilt states |
| ImageAttributes.ReplacePartsInOrder | client/helpers/editor-image-source.ts:46-49 | the loop applies the edits in descending order |
| ImageLens.PatchedIsRebuilt | client/helpers/editor-image-source.ts:93-107 | in whatever order the record lists its names, the result is the source with each patched attribute rewritten where it stands and the additions at the end; all other bytes stay |
| ImageLens.SortedEdits | client/helpers/editor-image-source.ts:46-49 | sorting brings the edits into the order of their places |
| ImageLens.PartsPlaced | client/helpers/editor-image-source.ts:52-91 | attributes are found from left to right and never overlap |
| ImageReadBack.PatchReadsBack | client/helpers/editor-image-source.ts:52-107 | after a patch everything outside is unchanged, and reading again gives the patched values and every other attribute as before, in sequence, if and only if nothing was appended behind an attribute that ends the tag with an equals sign and no value |
| ImageReadBack.PutGet | client/helpers/editor-image-source.ts:93-107 | every patched name then has its value (or is gone, if it was emptied) and the other attributes are the same |
| ImageReadBack.OpenEndExample | client/helpers/editor-image-source.ts:72-88 | a concrete tag where the appended attribute becomes the value of the last one |
| ImageReadBack.OpenEndShows | client/helpers/editor-image-source.ts:72-107 | an attribute that swallows an addition, if it is the only one of its name, had no value and is read with one |
| ImageReadBack.ReplacementThen | client/helpers/editor-image-source.ts:98-103 | a replacement in front of any text is read back as the value that was put |
| SourceImage.PatchedImageReadsBack | client/helpers/editor-image-source.ts:109-161 | a patched image is found again as one tag in the same place, with the patched attributes and the others as before, if and only if the quote scan over its kept and replaced attributes ends outside quotes and nothing is appended behind an open end; where the scan fails the tag is not found whole |
| SourceImage.RebuiltScan | client/helpers/editor-image-source.ts:113-119 | scanning the patched text for the end of the tag is the same as scanning its attributes one by one, as the guard does |
| SourceImage.QuoteFreeSurvives | client/helpers/editor-image-source.ts:113-119 | where no unquoted value holds a quote, every patch keeps the tag whole |
| SourceImage.RebuiltIsClosed | client/helpers/editor-image-source.ts:113-119 | the rebuilt attribute text of a tag without quotes in unquoted values leaves no quote open |
| SourceImage.QuoteExample | client/helpers/editor-image-source.ts:113-121 | a concrete tag with quotes in an unquoted src and an unquoted alt: its guard fails for a patch of src, and the patched tag is not found |
| SourceImage.FindHtmlImage | client/helpers/editor-image-source.ts:109-125 | the loops compute the parsed image |
| SourceImage.FindTagEnd | client/helpers/editor-image-source.ts:113-119 | the scan finds the first ">" outside quotes |
| ImageGrammar.TagEndExactly | client/helpers/editor-image-source.ts:113-119 | the tag ends with the first closing bracket that plain text and whole quoted strings leave outside |
| ImageGrammar.ImageExactly | client/helpers/editor-image-source.ts:109-125 | an image is found exactly where a whole tag stands whose text tiles into attributes |
| ImageProperties.PropertiesAfter | client/helpers/editor-image-source.ts:126-160 | after a patch each patched property shows what was put, dimensions as styles write them and styles in their fixed order, and every other property what it showed before |
| ImageMeaning.ShownExactly | client/helpers/editor-image-source.ts:31-44 | which source, text, alignment and styles a tag shows, over its attributes and class words |
| DimensionMeaning.DimensionShown | client/helpers/editor-image-source.ts:126-140 | which width and height it shows: the last one a simple style declares, else the attribute |
| DimensionMeaning.StyleExactly | client/helpers/editor-image-source.ts:129-134 | a style declares a dimension exactly by the shape of its last such declaration |
| DimensionMeaning.LowerExactly | client/helpers/editor-image-source.ts:132 | names and the mark are compared with their ASCII capitals lowered, each by its code point |
| DimensionMeaning.MarkedValue | client/helpers/editor-image-source.ts:132-133 | a declared value loses the mark behind it, with white space around both |
| DimensionMeaning.UnmarkedValue | client/helpers/editor-image-source.ts:132-133 | without a mark the trimmed text behind the colon is the value |
| DimensionMeaning.BlankValue | client/helpers/editor-image-source.ts:132-133 | white space alone is an empty value, nothing at all is none |
| DimensionMeaning.DeclarationsExactly | client/helpers/editor-image-source.ts:146-157 | the new style is every other declaration, in sequence, and the dimensions the edit sets |
| DimensionMeaning.EditsExactly | client/helpers/editor-image-source.ts:141-147 | an edit is carried out exactly for the patches the editor knows, and never on a style it cannot read |
| DimensionMeaning.DimensionExactly | client/helpers/editor-image-properties.ts:27-39 | which inputs are dimensions, and what each is normalised to, by the shape of the trimmed text |
| DimensionMeaning.DecimalExactly | client/helpers/editor-image-properties.ts:34 | a percentage is a decimal exactly by the shape of its characters |
| ImageMeaning.MergedExactly | client/helpers/editor-image-properties.ts:60-71 | the words of a merged class: those that stay, in sequence, then alignment and styles |
| ImageProperties.MergeReadsBack | client/helpers/editor-image-properties.ts:60-71 | merged classes show the alignment and styles that were put, and otherwise those that were there |
| ImageProperties.StyleReadsBack | client/helpers/editor-image-source.ts:146-158 | a new style attribute shows the patched dimensions, keeps the other one and stays editable |
| ImageProperties.ShownReadsBack | client/helpers/editor-image-properties.ts:27-39 | what is written for a dimension normalises to itself, except that it is refused if and only if the input is a percentage whose number is below 0.000001 |
| ImageProperties.TinyExample | client/helpers/editor-image-properties.ts:34-37 | 0.0000001% is accepted, is written with an exponent, and what is written is refused |
| Percentages.WrittenMeaning | client/helpers/editor-image-properties.ts:34-37 | a percentage is written as a plain decimal, that is read as the same number again, exactly when its number is not below 0.000001 |
| Percentages.TinyIffSixZeros | client/helpers/editor-image-properties.ts:34-37 | only literals with nothing but zeros up to the sixth decimal place are that small, and of those only the ones that round up to 0.000001 are not |
| Percentages.BelowThreshold | client/helpers/editor-image-properties.ts:34-37 | a literal stands for less than 0.000001 exactly when its whole part and its first six decimals are zeros |
| ImageProperties.WordsRoundTrip | client/helpers/editor-image-properties.ts:60-71 | class names joined by spaces split into the same names |
| ImageEditing.EditReadsBack | client/helpers/editor-image-source.ts:141-160 | an edited image is found again in place with the attributes of the edit if and only if it is editable, and then it shows the patched properties and the others as before |
| ImageEditing.ShowsIffEditable | client/helpers/editor-image-source.ts:126-160 | where the last attribute is the only src or alt, the edited image is found again and shows what it should if and only if it is editable |
| ImageEditing.QuoteEditExample | client/helpers/editor-image-source.ts:126-160 | putting a new source on an image with a quote in its unquoted src and alt writes a tag that is not found again |
| ImageEditing.SerializeReadsBack | client/helpers/editor-image-source.ts:432-444 | every valid payload is written as an HTML image that reads back with its source, text, alignment, styles and dimensions |
| Glossary.PickedIff | client/helpers/glossary-runtime.ts:141-149 | a candidate is linked exactly when no marker and no better linked candidate overlaps it and no better one has its term |
| Glossary.OncePerTerm | client/helpers/glossary-runtime.ts:144-149 | each term is linked at most once over all nodes |
| Glossary.ChosenAreApart | client/helpers/glossary-runtime.ts:144-149 | the matches of a node never overlap, lie inside its text, and begin with its markers |
| Glossary.EveryHitIsAccountedFor | client/helpers/glossary-runtime.ts:127-149 | every hit overlaps a marker, is linked, or gave way to a linked hit that is no worse and shares its term or overlaps it |
| GlossaryMeaning.PreferenceMeaning | client/helpers/glossary-runtime.ts:141 | candidates come by length, then node, place and term id |
| GlossaryMeaning.EveryHitHasItsReason | client/helpers/glossary-runtime.ts:127-149 | every hit touches a marker, is linked as it stands, or gives way to a linked one that is no worse |
| GlossaryMeaning.EveryLinkIsAHit | client/helpers/glossary-runtime.ts:141-149 | and nothing else is linked |
| Glossary.RankedMeaning | client/helpers/glossary-runtime.ts:127-141 | the candidates are exactly the hits clear of every marker, best first |
| Glossary.ChooseMatches | client/helpers/glossary-runtime.ts:127-149 | the greedy loop computes the choice that PickedIff characterises |
| Glossary.LinkedTextIsOriginal | client/helpers/glossary-runtime.ts:150-173 | the text a reader sees is the original with only the markers replaced by their labels |
| GlossaryMeaning.NodeExactly | client/helpers/glossary-runtime.ts:153-170 | what a node shows in document order: each marker its label, each link its text, under their terms, and the untouched text between |
| Glossary.Assemble | client/helpers/glossary-runtime.ts:153-170 | the assembly loop builds the pieces that LinkedTextIsOriginal reads |
| Glossary.HitCoversSegments | client/helpers/glossary-runtime.ts:87-100 | a hit on the normalised text covers whole graphemes of the source, in order and at least one |
| Glossary.OffsetsAscend | client/helpers/glossary-runtime.ts:87-100 | offsets never run backwards, and positions of different graphemes map to disjoint places |
| Glossary.Normalized | client/helpers/glossary-runtime.ts:87-100 | the nested loops compute the offset maps |
| QuoteAnchor.RelocateExactly | client/helpers/discussion-anchors.ts:5-32 | a quote captured anywhere on any indexed text is found at its own place if and only if the selected text is in normal form, its place survives the context and heading filters and no other does; a selected text in normal form is never missing, of any other only different text can be found |
| QuoteAnchor.SelectionIsPlace | client/helpers/discussion-anchors.ts:131-150 | every selection that touches the page gives a place that begins and ends in a glyph, as RelocateExactly needs |
| QuoteAnchor.OwnPlaceSurvives | client/helpers/discussion-anchors.ts:15-27 | the own place passes the filters exactly when its collapsed context fits there or fits nowhere |
| QuoteAnchor.AccentExample | client/helpers/discussion-anchors.ts:3-8 | a page text with an accent on a no-break space, captured whole, is missing on the same page |
| QuoteAnchor.ElsewhereExample | client/helpers/discussion-anchors.ts:15-30 | a page on which a captured quote in normal form is found at another place than its own, because only there its collapsed prefix fits |
| QuoteAnchor.RelocateOnCleanPage | client/helpers/discussion-anchors.ts:5-32 | where no glyph holds white space the quote is found at its own place if and only if no other place fits quote, context and heading, and is otherwise ambiguous; never missing, never elsewhere |
| QuoteAnchor.SurvivorsMeaning | client/helpers/discussion-anchors.ts:13-27 | what the filters leave: the places in the stored context, or all if there is none, and of those the ones under the stored heading, or all if there is none |
| QuoteAnchor.LocateMeaning | client/helpers/discussion-anchors.ts:5-32 | for any anchor: missing exactly for a blank or absent quote, found exactly at the only place that survives the filters, ambiguous exactly when two survive |
| QuoteMeaning.NormalFormMeaning | client/helpers/discussion-anchors.ts:3 | the normal form of a quote is its words, one space apart |
| QuoteMeaning.CollapseMeaning | client/helpers/discussion-anchors.ts:17-18 | collapsing keeps the words one space apart, and one space for each blank end |
| QuoteAnchor.AllOccurrences | client/helpers/discussion-anchors.ts:13 | the candidates are all places of the quote, overlapping ones included, from left to right |
| QuoteAnchor.Candidates | client/helpers/discussion-anchors.ts:13 | the indexOf loop enumerates them |
| QuoteAnchor.LocateDiscussionAnchor | client/helpers/discussion-anchors.ts:5-32 | the filters in their order compute the result that the two theorems explain |
| QuoteAnchor.IndexIsTidy | client/helpers/discussion-anchors.ts:79-116 | where no glyph holds white space the indexed text has single spaces between words only, one point per character, and blank points exactly at its spaces |
| QuoteAnchor.IndexShape | client/helpers/discussion-anchors.ts:79-116 | whatever the glyphs: the index holds exactly their characters, in order, with single blank points, each one space, strictly between some of them |
| QuoteMeaning.IndexMeaning | client/helpers/discussion-anchors.ts:84-116 | whatever the tree: a blank stands exactly where a gap lies between two glyphs, and every character carries the heading in force |
| QuoteAnchor.IndexDiscussionText | client/helpers/discussion-anchors.ts:79-116 | the walk builds that index |
| QuoteAnchor.CaptureDiscussionAnchor | client/helpers/discussion-anchors.ts:131-160 | the loop captures from the first to the last touched point that is not blank |
| QuoteAnchor.CapturedFits | client/helpers/discussion-anchors.ts:151-159 | the captured quote is the selected text, in normal form, and fits its own place |
| QuoteMeaning.CapturedMeaning | client/helpers/discussion-anchors.ts:151-159 | a captured quote carries the longest context of at most 64 characters on either side, its heading and its place |
| NavigationMenu.MenuIsShaped | shared/navigation-policy.ts:63-79 | no divider first, last, doubled or behind a header, a link under every header, and nothing hidden or refused |
| NavigationMenu.FixedIffShaped | shared/navigation-policy.ts:65-79 | exactly the shaped lists of visible, valid items are left as they are |
| NavigationMenu.MenuIsIdempotent | shared/navigation-policy.ts:65-79 | a menu of a menu is the menu |
| NavigationMenu.MenuKeepsLinks | shared/navigation-policy.ts:65-79 | every visible valid link stays, in order, and a header stays exactly when a link follows before the next header |
| MenuMeaning.MenuExactly | shared/navigation-policy.ts:63-79 | the menu is the items that stay, in order: who sees an item and whether it stays is said of each by itself, header, divider and link |
| NavigationMenu.NavigationMenuItems | shared/navigation-policy.ts:65-79 | the loops, with their look-ahead and final trimming, compute the menu of the theorems |
| NavigationMenu.LinkBefore | shared/navigation-policy.ts:70-72 | the inner loop finds a link before the next header |
| RunStream.RedeliveryIsReplay | client/helpers/agents-api.ts:834-903 | after a reconnect what was delivered before comes again only as replay |
| RunStream.LiveRepeatsExactly | client/helpers/agents-api.ts:882-897 | a live delivery repeats a delivered sequence if and only if a frame with it was accepted since the connection last opened; what was delivered before a reset is never repeated live |
| RunStreamFrames.ReadyExactly | client/helpers/agents-api.ts:861-876 | read off the handler calls: a ready frame is told if and only if it parses to a boundary of this run, first on its connection, that covers what was delivered, with no id or the numeral of the highest sequence delivered |
| RunStreamFrames.DataExactly | client/helpers/agents-api.ts:882-896 | a data frame is delivered in a phase if and only if it parses to an event of this run and type under an open boundary, its id is the numeral of its sequence, memory events name owner and session, and the boundary gives the phase |
| RunStreamFrames.OpenBoundaryExactly | client/helpers/agents-api.ts:849-875 | a boundary is open exactly when it was told and neither a reset nor another boundary came after it |
| RunStreamFrames.HighestExactly | client/helpers/agents-api.ts:847-895 | the cursor the calls show is the highest sequence delivered, or where the stream began |
| RunStreamFrames.CallsExactly | client/helpers/agents-api.ts:850-905 | in every run the calls grow by exactly what the frame asks for, judged by the calls alone |
| RunStreamFrames.FailsExactly | client/helpers/agents-api.ts:853-900 | the stream fails exactly on a broken connection, a throwing handler or a frame that does not fit |
| RunStreamFrames.FailedCallsExactly | client/helpers/agents-api.ts:850-862 | a failed stream calls nothing but the reset of each opening |
| RunStreamFrames.SequenceIsNumeral | client/helpers/agents-api.ts:887-888 | a data frame's id is taken exactly if it is the numeral of a positive safe integer |
| RunStream.BoundaryCoversDelivered | client/helpers/agents-api.ts:866-876 | an accepted ready boundary is at least every sequence delivered before |
| RunStream.DeliveredUnderBoundary | client/helpers/agents-api.ts:882-897 | an event is delivered only under a boundary told since the last reset, which fixes its phase |
| RunStream.OneBoundaryPerConnection | client/helpers/agents-api.ts:867-875 | between two resets at most one boundary is told |
| RunStream.CursorGrows | client/helpers/agents-api.ts:895 | the cursor never goes back, and calls are only added |
| RunStream.FailureIsFinal | client/helpers/agents-api.ts:853-859 | once the stream has failed nothing is called any more, except that an opening still resets |
| RunStream.ErrorIsLast | client/helpers/agents-api.ts:853-859 | failure is told at most once, and nothing is delivered or told ready after it |
| RunStream.FailureIsTold | client/helpers/agents-api.ts:853-859 | the stream fails on exactly the first event it does not survive, at most once; the source is closed and the failure told if and only if the reset handler returned |
| RunStream.SilentFailure | client/helpers/agents-api.ts:849-859 | an instance: the connection breaks, the reset handler throws, and nobody is told |
| RunStream.LiveCanRepeat | client/helpers/agents-api.ts:887-896 | an instance: a run that delivers a live event twice on one connection |
| RunStream.AlwaysSound | client/helpers/agents-api.ts:834-903 | cursor and boundary can be read off the handler calls, and a told failure is one |
| RunStream.AgentRunStream.OnReady | client/helpers/agents-api.ts:861-880 | refines the handling of a ready frame |
| RunStream.AgentRunStream.OnData | client/helpers/agents-api.ts:882-900 | refines the handling of an event frame |
| RunStream.SubscribeAgentRun | client/helpers/agents-api.ts:834-847 | a stream is opened exactly for a safe, non-negative cursor |

## Left out

- ImageEditing.EditReadsBack: the attributes are exact; that the shown properties agree is an equivalence where the last attribute is the only src or alt (`ImageEditing.ShowsIffEditable`), and else one way, since behind an open attribute that is not shown an addition may be lost that shows nothing.
- Precache.OnceCompleteAlwaysComplete: speaks of published caches, because a complete one can still be taken back by its own install (`Precache.LastLostExactlyWhen`).
- RunStream.CursorGrows: does not say that live events are new within one connection, because they need not be (`RunStream.LiveRepeatsExactly`).
- Posted messages of the update round and the replay of a preparation: only the loss of a port, which a failed post causes, is an event.
- Internals of Yjs, Cache Storage, Workers, WebSocket, EventSource, the diff and markup libraries, DOMPurify and URL parsing.
- Fetch retries, response types and integrity digests of the precache: one validated-or-not answer per fetch.
- Real time: timers are events that may fire at any point while armed; back-off delays are not modelled.
- Walking the DOM, regular-expression engines, grapheme segmentation and Unicode normalisation: hits, glyphs and segments are given, and text is in normal form.
- UTF-16 surrogate pairs: text is a sequence of characters.
- JSON.parse of one string literal and schema validation of frames: parameters.
- Images in Markdown and AsciiDoc, whose escaping does not round-trip for every text, and the shorthand attributes they use.
- The search for the image under the cursor, past comments, scripts and foreign tags.
- Lower-casing of names beyond ASCII in style declarations.
- The wording of labels, links and messages.
- REST clients, schemas, settings validators, server start-up, routing and views.

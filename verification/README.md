# walite: verified model of its bounded structures

walite is a chat client whose memory, queues and caches are all bounded. This
project models the code that keeps those bounds while messages, reactions, receipts
and cancellations arrive in any order, and proves what the bounded structures hold
over whole runs.

Run `dafny verify dfyconfig.toml` to check everything.

## How to read it

- `Frontier` states once what "the newest k entries of a keyed table" is and that
  trimming early never changes the final result. The reaction cache, the bootstrap
  filter, the retention pipeline and read receipts all refine it.
- `Messages`, `Store`, `Retention`, `Runs`, `Config`, `RetentionLimits`: the in-memory store,
  its paging, the retention policy, the writer's decide-write-prune batch, and what a
  validated configuration guarantees over runs.
- `Reactions`, `Bootstrap`, `BootstrapExact`, `BootstrapMessages`: the SQLite reaction rows
  as table operations, and the two filters of HistorySync.
- `QueueMachine`, `BoundedQueue`, `QueueView`, `Send`: the weighted queue twice, once as a
  machine whose steps are mutex sections (for all interleavings) and once as the objects
  with their ring, counter and flags; the view of the queue that both follow; and the send
  that reserves capacity first.
- `ChatAliases`: the phone-number/hidden-user registry, an array edited in place.
- `WriterLoop`, `Startup`, `HistorySource`, `HistoryJobs`, `SqliteWriter`,
  `SqliteShutdown`: the goroutine protocols. Where a goroutine is modelled as code, the
  rest of the program is a script consumed before every look at shared state; results
  hold for every script, and a run whose script is used up is suspended where it is.
- `Utf8`: bounded normalisation against RFC 3629 (section 3 for the encoding, section 4
  for the syntax of well-formed sequences).
- `Wrappers`, `Sorting`, `QueueErrors`: an optional value, the library sort and the errors of
  the queue.
- `MessageWindow`, `OlderHistory`, `ReadReceipts`: the message window of a chat on screen,
  the page of stored messages that is put in front of it, and the coalescing ring of read
  receipts.

Conventions: identifiers are numbers, because only their order and equality are used;
0 is the empty identifier where the code has one, and 0 is Go's zero time. Reaction
times are nanoseconds, and the cache's milliseconds are their floor. Clocks, store
usage, cancellation, transport answers and the outcome of a transaction are parameters.
`sort.Slice` is an insertion sort with the same order. Integer widths are written out
where they matter: saturating unread counters, checked 64-bit sums, the 64-bit
configuration values.

## What the code does differently from its intent

- The bootstrap reaction filter and the cache disagree on some inputs. `Bootstrap.RetainExact`
  says for all times when one offered reaction makes a difference: the reactor is known and
  two values within one millisecond have their emoji ordered against their instants, or the
  target is full and what the filter drops is not the last by millisecond and reactor.
  Filtering first is harmless for every table exactly when it is for an empty cache in which
  every target is stored (`Bootstrap.PreTrimExact`); while no reaction makes a difference it
  is (`Bootstrap.PreTrimIsHarmless`), and the first one that does shows at once
  (`Bootstrap.DivergenceShows`). `BootstrapExact.FilterKeepsExactly` says for every batch
  which reactions the filter keeps, and `BootstrapExact.PreTrimOnBatch` reads the answer off
  that: filtering first is harmless for every table if and only if no kept reaction follows,
  within a millisecond, one of its reactor that the cache prefers, and none is kept in the
  place of another of the same millisecond and a smaller reactor. The two cases have their
  smallest inputs in `Bootstrap.SubMillisecondCounterexample` and `Bootstrap.TieCounterexample`.
- An older page whose validation succeeds can still be shown below the window: a message
  without a time counts as oldest in the validation and as newest in the insertion.
  `MessageWindow.OlderPageExtends` gives the exact condition and
  `MessageWindow.UntimedPageCounterexample` the smallest case. The shipped page worker
  cannot send such a page, because its messages come from `model.Message`, which refuses a
  zero time (internal/model/normalize.go:93); the window function itself accepts one from
  any other supplier.
- A history batch whose context is cancelled between its write and its prunes leaves its
  rows behind while the writer goes on with live batches, so a later live batch can pass the
  snapshot limit, or the store can refuse it for rows. For every store, batch and moment of
  cancellation this happens, when nothing else stands in the way, exactly when some chat the
  live batch touches holds rows and new identifiers beyond the limit
  (`Retention.RowTroubleExactly`, `RetentionLimits.LiveAfterHistoryTells`); it cannot while
  both batches together hold at most one batch and one message. `Runs.EveryRunTells` and
  `RetentionLimits.ConfiguredRunTells` carry this over runs, and
  `RetentionLimits.CancelledBatchOverfills` performs such batches.
- The history source gives channels and tokens the same capacities so that a channel is
  never the one that is full. That holds as long as jobs are released only after they were
  received; releasing a waiting job is accepted and breaks it, and nothing else does (`HistorySource.ReleaseExact`); `HistorySource.WaitingReleaseFills` turns
  away a job although no token is out.
- Pending read receipts keep the sender of whichever equally late item came first.
  `ReadReceipts.AdmissionOrderExactly` says when that does not show.
- A send to an identity the registry does not know, offered with an alternate that it
  does know, is refused as a conflict, while general routing would join the two. A refused
  send may have turned an entry around; the pairing of identities is unchanged
  (`ChatAliases.Registry.ResolveForSend`).

## Model

| member | source | states |
|---|---|---|
| Frontier.TrimEarly | internal/store/sqlite_reaction.go:59-74 | Trimming a keyed table to its newest k before an insert-or-replace never changes the trimmed outcome, for every rule that never prefers an older value |
| Frontier.DroppedIsBeaten | internal/store/sqlite_reaction.go:69-72 | An entry that is dropped has k newer entries that are themselves kept |
| Frontier.TrimUnique | internal/store/sqlite_reaction.go:69-72 | The trimmed table is the only part of the right size all of whose entries are newer than every entry left out |
| Frontier.TrimSize | internal/store/sqlite_reaction.go:69-72 | Trimming keeps min(k, size) entries, and all of a small table |
| Reactions.SupersedesIsStrictTotal | internal/store/sqlite_reaction.go:61-65 | The upsert's WHERE clause is a strict total order that never prefers an older value |
| Reactions.DeletesBound | internal/store/sqlite_reaction.go:69-82 | The two DELETE statements together cut every stored target, and all orphans of the chat, to their newest 64 |
| Reactions.WriteRefines | internal/store/sqlite_reaction.go:54-86 | One write on bounded rows equals bounding the unbounded latest-value table with the write put in |
| Reactions.RunIsNewestOfLatest | internal/store/sqlite_reaction.go:54-86 | After any sequence of writes the rows are the newest 64 per class of the per-reactor latest values, although every step trimmed |
| Reactions.StoredTargetRun | internal/store/sqlite_reaction.go:59-74 | For a target that stays stored this holds whatever other base messages come and go |
| Reactions.LatestIsLatest | internal/store/sqlite_reaction.go:61-65 | Folding the upsert yields a latest value per reactor in a sense that mentions no order of arrival |
| Reactions.StoredTargetConverges | internal/store/sqlite_reaction.go:54-86 | Every replay order, repetition and interleaving of the same mutations leaves the same rows for a stored target, at most 64 |
| Reactions.ChatConverges | internal/store/sqlite_reaction.go:54-86 | While no base message arrives or leaves, the whole chat converges, bounded orphans included |
| Reactions.ReactionStore.WriteReaction | internal/store/sqlite_reaction.go:54-86 | A write changes the rows of its chat by exactly the three statements, ensures the chat exists and keeps every bound |
| Bootstrap.RetainNewestBootstrapReaction | internal/wa/history_sync.go:181-205 | The loop with its oldest and targetCount computes one filter step: supersede, append, evict the oldest, or drop |
| Bootstrap.CapNeverDecides | internal/wa/history_sync.go:198 | With at most 50 target messages the per-chat cap conjunct never decides |
| Bootstrap.RetainExact | internal/wa/history_sync.go:181-205 | For all times one filter step equals the cache's upsert and bound if and only if it takes neither branch in which they part ways: two values of one reactor within a millisecond with emoji ordered against their instants, or a full target of which the filter drops a row that is not last by millisecond and reactor |
| Bootstrap.FilterBatch | internal/wa/history_sync.go:124-139 | The loop over a conversation's reactions is the filter step folded over the batch |
| Bootstrap.FilterIsRun | internal/wa/history_sync.go:124-139 | While no step takes such a branch, filtering a batch is a run of the cache in which every target is stored |
| Bootstrap.PreTrimIsHarmless | internal/wa/history_sync.go:181-217 | While no step takes such a branch, filtering first and applying what is left gives the same cache table as applying the whole batch, on every existing table |
| Bootstrap.PreTrimExact | internal/wa/history_sync.go:181-217 | For every batch of at most 50 targets: filtering first is harmless on every table, targets stored or not, if and only if it is on the empty cache with every target stored |
| Bootstrap.DivergenceShows | internal/wa/history_sync.go:181-217 | A batch whose last reaction is the first to take such a branch leaves different rows |
| Bootstrap.FewReactorsExact | internal/wa/history_sync.go:207-217 | For a batch with at most 64 reactors per target: filtering first is harmless on every table if and only if no reactor's last reaction follows, within one millisecond, an earlier one whose emoji the cache prefers |
| BootstrapExact.FilterKeepsExactly | internal/wa/history_sync.go:181-205 | For every batch the filter keeps of each target exactly the 64 reactors that come first by the instant of their last reaction, then those that reached that instant before 64 others had, then the smaller reactor; each with its last reaction |
| BootstrapExact.PreTrimOnBatch | internal/wa/history_sync.go:181-217 | For every batch of at most 50 targets, with a condition on the batch alone: filtering first is harmless on every table, targets stored or not, if and only if no kept reaction follows, within one millisecond, one of its reactor whose emoji the cache prefers, and no reaction is kept while another of the same target and millisecond with a smaller reactor is dropped |
| Bootstrap.SeparatedPreTrimIsHarmless | internal/wa/history_sync.go:181-217 | In particular when no two reactors on one target tie in time |
| Bootstrap.SubMillisecondCounterexample | internal/wa/history_sync.go:207-217 | A batch of two reactions on which filter and cache end differently because the cache stores milliseconds |
| Bootstrap.TieCounterexample | internal/wa/history_sync.go:201-203 | A batch of 65 reactions with one tie that the filter resolves for the first ones seen and the cache for the smaller reactor |
| BootstrapMessages.RetainNewestBootstrapMessage | internal/wa/history_sync.go:231-251 | The loops compute one step of the message filter |
| BootstrapMessages.RetainedIsNewest | internal/wa/history_sync.go:231-258 | After a whole conversation in any order, with repetitions, the unordered buffer holds exactly the newest 50 messages |
| Messages.ListingUnique | internal/store/memory.go:374-379 | A chat's rows have only one listing in strictly descending (time, identifier) order |
| Messages.ReadPage | internal/store/memory.go:388-422 | A page holds the first min(limit, 100) of that listing of the rows older than the cursor, or all of them when there are fewer; its cursor is its last row exactly when more are left; a limit that is not positive is rejected |
| Messages.WalkListsAll | internal/store/memory.go:388-422 | Pages that follow one another list every row once, newest first |
| Messages.PagesCoverChat | internal/store/memory.go:388-422 | From no cursor, for every positive limit, following the cursors ends and the pages together are exactly the chat |
| Store.StageMeans | internal/store/memory.go:156-262 | Staging succeeds exactly when rows with one identifier agree on time and direction; it holds the merge of each identifier's rows and marks the first rows not stored before |
| Store.FoldMeans | internal/store/memory.go:196-243 | What merging leaves, told over the stored row and the rows of the batch with one identifier, in order: the body if any of them had it and the text of the last that tells, the first quote and the first sender told, the group mark if any tells it, the eligibility and time of the first; a row tells when it has the body or none before it had |
| Store.CommittedTold | internal/store/memory.go:196-322 | After the commit every row of the store, touched or not, is what its rows in order leave, and no other rows are stored |
| Store.GroupGrows | internal/store/memory.go:324-350 | A chat is marked a group from its first inserted group message on, and never unmarked |
| Store.UnreadGrows | internal/store/memory.go:324-350 | Unread grows by the newly inserted incoming messages, saturating at 32 bits, in realtime only |
| Store.ActivityIsMaximum | internal/store/memory.go:324-350 | Activity is the running maximum of inserted times |
| Store.EventsMean | internal/store/memory.go:264-303 | One live event per identifier not stored before, in first-occurrence order, with the counters of that moment |
| Store.ReplayIsSilent | internal/store/memory.go:156-322 | Writing a committed batch again inserts nothing, emits nothing and moves no counter |
| Store.Memory.WriteBatch | internal/store/memory.go:156-322 | A rejected batch changes nothing; an accepted one leaves exactly the committed state and returns its events; for every identifier the row left is told from its stored row and those of the batch, as Store.FoldMeans says |
| Store.Memory.ApplyPrune | internal/store/memory.go:454-503 | Deletes the listed rows, counts rows and bodies, and moves the anchor as the plan says |
| Store.DeleteRows | internal/store/memory.go:480-496 | Each listed row is deleted and counted once although identifiers may repeat |
| Retention.CountNewerBodies | internal/service/history.go:283-296 | The loop counts exactly the stored bodies newer than the candidate |
| Retention.RemovedIffDropped | internal/syncpolicy/policy.go:99-124 | The scan keeps a row exactly when it is among the newest non-aged bodies |
| Retention.Scan | internal/syncpolicy/policy.go:99-124 | The scan deletes exactly the other rows, newest first, and remembers the oldest of them |
| Retention.PlanPrune | internal/syncpolicy/policy.go:68-148 | The plan deletes exactly what must go, and offers the oldest deleted row as anchor when it is older than the present one |
| Retention.DemotedIsDoomed | internal/syncpolicy/policy.go:34-66 | A message whose body the early decision removed would have been pruned after the write |
| Retention.DecideWritePruneRefines | internal/service/writer.go:390-482 | Deciding against the stale snapshot, writing with merging and pruning leaves the same rows as writing everything and keeping the newest bodies |
| Retention.SuccessfulBatchKeepsNewest | internal/service/writer.go:390-482 | After a successful batch under a clock that never goes back each touched chat holds exactly the newest non-aged bodies of its old rows and the batch, and other chats are unchanged |
| Retention.ApplyBoundedBatch | internal/service/writer.go:390-482 | The in-place batch succeeds if and only if it is not cancelled before a clock reading, no reading is zero, rows of one identifier agree, the chats fit, and no touched chat's rows and new identifiers pass a limit; each error names the one that failed; rows are stored exactly when the batch reaches a write the store accepts; a failure leaves the store as it was, or the new rows with some touched chats pruned; events are those of the write. Bodies are told without the decision: in chats not pruned exactly those stored before and those that are young enough, among the newest by the stored ones and, for history, within the cache budget; in pruned ones no others. History over the budget adds no body anywhere, and its chats keep exactly the newest non-aged of their own. Rows without bodies never keep text or quotes |
| Retention.BatchBodies | internal/syncpolicy/policy.go:34-66 | The same account of bodies for every store between a write and any of its prunes |
| Retention.HistorySheds | internal/syncpolicy/policy.go:58-60 | Past the cache budget a history batch, ended or stopped, leaves no body that was not there with the same row before, loses none in chats not yet pruned, and a pruned chat holds exactly the newest non-aged bodies of its old rows |
| Retention.BatchStaysBare | internal/model/store.go:234-254 | While no row without a body has text or a quote, no batch, whatever it demotes and however it ends, stores one |
| Retention.RowTroubleExactly | internal/service/writer.go:405-407 | For every store and batch: when nothing else stands in the way, the snapshot limit is met or the store refuses for rows if and only if some touched chat's rows and new identifiers pass the limit |
| Retention.BatchKeepsSizes | internal/service/writer.go:440-481 | After a successful batch no chat exceeds its bound, the touched ones are at the configured count at most, and within the batch a chat exceeds the bound by at most the batch |
| Retention.BatchStaysWithin | internal/syncpolicy/policy.go:126-147 | A successful batch keeps the row bound and the anchor as the oldest row ever pruned |
| Retention.StoppedBatchStaysWithin | internal/service/writer.go:458-461 | A batch stopped after its write exceeds the bound by at most its own messages and keeps every anchor |
| Runs.EveryRunTells | internal/service/writer.go:89-161 | Over every run of batches from a settled store, whatever was cancelled where: no chat exceeds the configured count, or by at most the one history batch cancelled on the way; every anchor is the oldest of the rows that the run and its past pruned; and rows stop the writer only on a live batch after such a history batch, when the two together exceed the room above the configured count |
| Runs.RunKeepsNewest | internal/service/writer.go:390-482 | After every run a chat last touched by a successful batch holds exactly the newest non-aged bodies of what it held before that batch and the batch |
| Runs.RunBatches | internal/service/writer.go:89-161 | The loop performs such a run on the store: every submission in its turn with the outcome, rows and prunes its contract fixes, history given up after its context was cancelled and nothing else skipped, and a stop exactly at a failure other than that |
| Config.Validate | internal/config/values.go:192-252 | Validation succeeds if and only if all ranges and cross-field bounds hold, for every 64-bit input; otherwise it reports field, value, bounds and rule of the first value that is not positive, or else of a sum that leaves 64 bits, or else of the first value outside its range, or else of the first cross-field bound that is passed |
| Config.CheckedAdd | internal/config/values.go:401-411 | The checked sum fails exactly when 64 bits cannot hold it |
| Config.QueueBytesTotal | internal/config/values.go:374-395 | For any six budgets the loop reports overflow exactly when a running sum leaves 64 bits, and otherwise returns the total |
| Config.PositiveSumsFit | internal/config/values.go:374-395 | For positive budgets that is when the total leaves 64 bits |
| Config.LimitsMean | internal/config/values.go:263-287 | The table of limits says what the declared ranges say, field by field |
| RetentionLimits.ConfiguredRunTells | cmd/walite/connected_service.go:66 | For every run from an empty store under a valid configuration: rows stop the writer only on a live batch after a cancelled history batch, when both together hold more than one batch and one message; without a cancelled history batch every chat is within the configured count with its anchor at the oldest row pruned |
| RetentionLimits.RunConfigured | cmd/walite/connected_service.go:66 | A fresh store under a valid configuration performs such a run of whatever is submitted |
| RetentionLimits.LiveAfterHistoryTells | internal/service/writer.go:148-152 | For every settled store, history batch, moment of cancellation and later live batch: the live batch has row trouble, when nothing else stands in its way, if and only if some chat it touches holds rows and new identifiers beyond the limit, and never while both together hold at most one batch and one message |
| RetentionLimits.HistoryThenLive | internal/service/writer.go:148-152 | The two batches performed one after the other, each with the outcome, rows and prunes its contract fixes |
| RetentionLimits.BurstsOverfill | internal/service/writer.go:148-152 | On every store with a full chat: of a history batch of h new messages cancelled after its write and a live batch of n newer ones the first reports the cancellation, and the second has row trouble exactly when h + n exceeds one batch and one message |
| RetentionLimits.CancelledBatchOverfills | internal/service/writer.go:148-152 | Fills a store's chat and performs those two batches |
| QueueMachine.EmptyHasInv | internal/service/queue.go:59-72 | A new queue satisfies the accounts |
| QueueMachine.StepKeepsInv | internal/service/queue.go:74-149 | Every mutex section keeps the accounts: used is the weight of undischarged permits, slots are not exceeded, values leave in the order they were put |
| QueueMachine.RunConserves | internal/service/queue.go:267-379 | The same over every interleaving, with permits never revived and logs only extended |
| QueueMachine.DischargeFreesOnce | internal/service/budget.go:107-169 | A permit is discharged by at most one operation; later attempts fail and change nothing |
| QueueMachine.ForeignRunKeepsReservation | internal/service/queue.go:328-379 | No run of other goroutines ends a reservation |
| QueueMachine.CommitCannotFail | internal/service/queue.go:328-358 | A value no heavier than its reservation always commits, even into a stopped queue |
| QueueMachine.ReservationReleases | internal/service/queue.go:360-379 | Giving a reservation up returns its slot and its bytes |
| QueueView.PutSeen | internal/service/queue.go:124-149 | The machine's put changes what callers see, and answers, as the object's does |
| QueueView.TakeSeen | internal/service/queue.go:267-281 | The same for a take |
| QueueView.ReserveSeen | internal/service/queue.go:103-122 | The same for reserving capacity |
| QueueView.CommitSeen | internal/service/queue.go:328-358 | The same for a commit |
| QueueView.ReleaseSeen | internal/service/budget.go:152-169 | A release is two sections of the machine that together free the weight once, as the object's does |
| QueueView.GiveBackSeen | internal/service/queue.go:360-379 | Giving a reservation back is three sections that together do what the object's does |
| QueueView.CloseSeen | internal/service/queue.go:283-293 | The machine's close stops the queue and leaves its entries, as the object's does |
| BoundedQueue.ByteBudget.TryAcquire | internal/service/budget.go:41-55 | Charges exactly the weight or fails with the right error and no effect |
| BoundedQueue.ByteBudget.Replace | internal/service/budget.go:107-132 | Trades a live permit for one of another weight; a failed trade changes nothing |
| BoundedQueue.Permit.Release | internal/service/budget.go:152-169 | Discharges once; a second release fails and frees nothing |
| BoundedQueue.Queue.PutReserved | internal/service/queue.go:124-149 | Appends to the ring or fails in the code's order of checks |
| BoundedQueue.Queue.TryTake | internal/service/queue.go:267-281 | Removes the oldest entry with its live permit |
| BoundedQueue.Queue.DrainAndRelease | internal/service/queue.go:295-305 | Empties the ring and discharges exactly its permits |
| BoundedQueue.Queue.TryReserveCapacity | internal/service/queue.go:103-122 | Reserves a slot and the bytes, or neither |
| BoundedQueue.Queue.Commit | internal/service/queue.go:328-358 | Turns an active reservation into an entry; within the reserved weight it cannot fail |
| BoundedQueue.Queue.ReleaseReservation | internal/service/queue.go:360-379 | Frees slot and bytes once |
| Send.CheckedByteSum | internal/model/normalize.go:282-293 | The loop returns the sum exactly when all parts are non-negative and the sum fits 64 bits |
| Send.NormalizedEventByteSize | internal/model/normalize.go:270-280 | An event's charge never exceeds the reserved maximum |
| Send.SendIsAllOrNothing | internal/service/send.go:89-133 | A send is admitted exactly when it reserved and the transport delivered a valid matching event; then the event is queued once, otherwise entries, reservations and bytes are as before |
| Send.SendReports | internal/service/send.go:72-133 | Each error has exactly its causes: closed when sends are not accepted or the queue is stopped, busy without a send slot, a queue slot or the bytes, cancelled before or after reserving or by the transport, degraded when the transport fails otherwise, malformed for a bad request or a bad answer, and broken only when the queue could never hold one event |
| Send.FailedSendRestores | internal/service/send.go:89-133 | With nobody else running a failed send leaves the queue as it was |
| ChatAliases.PartnersAreMutual | internal/wa/chat_aliases.go:32-48 | The alternate of an identity's alternate is the identity, and only opposite direct identities are joined |
| ChatAliases.Registry.AlternateFor | internal/wa/chat_aliases.go:32-48 | The search finds exactly the partner, if there is one; for the empty identity it answers the oldest identity known alone, if there is one |
| ChatAliases.Registry.Merge | internal/wa/chat_aliases.go:114-117 | Overwriting one slot and closing the gap of the other yields the registry without that slot |
| ChatAliases.Registry.Resolve | internal/wa/chat_aliases.go:73-143 | Conflicts exactly when one identity is joined elsewhere, is full exactly when both are unknown and no slot is left; a failure changes nothing. Otherwise the two are joined and the answer is the canonical identity, before the call, of the older slot among theirs, or the caller's when neither is known; everyone else keeps partner, canonical identity and age |
| ChatAliases.Registry.ResolveForSend | internal/wa/chat_aliases.go:150-215 | The same for sends, where the selected identity becomes canonical and an unknown selection of a known chat conflicts; everyone else keeps partner and canonical identity; a failure changes no pairing |
| ChatAliases.Registry.AnswerAll | internal/wa/chat_aliases.go:73-215 | Any sequence of routing and sending requests, answered one after the other, is a run: each is refused for a conflict or a full registry exactly when the state before it says so, pairs nothing then, and otherwise joins its two identities |
| ChatAliases.JoinedStayJoined | internal/wa/chat_aliases.go:73-215 | Over every run of calls two identities once joined stay joined |
| ChatAliases.PairsAreTheCalls | internal/wa/chat_aliases.go:73-215 | From an empty registry the pairs are exactly those that served calls joined |
| ChatAliases.JoinedShareTheirRoute | internal/wa/chat_aliases.go:30-48 | Joined identities resolve to one canonical identity |
| ChatAliases.ServedPairs | internal/wa/chat_aliases.go:55-72 | A served call with a direct identity of each server makes them each other's partners; with any other offer it pairs nobody |
| ChatAliases.OlderKeepsSpeaking | internal/wa/chat_aliases.go:97-118 | Over every run of routing calls an identity that was known is spoken for, after any merge, by the canonical identity of the older of the two slots it was merged from |
| WriterLoop.HistoryWaitsForLive | internal/service/writer.go:137-155 | In an orderly log each history batch has a start before it, with nothing but looks at the history queue in between, and at that start the writer had just found no live message or knew live had ended; every batch is exactly the leases taken from its queue since the batch before, in order, and within 25 or 50 |
| WriterLoop.OwnStart | internal/service/writer.go:137-155 | No two history batches share a start |
| WriterLoop.TakenIsTold | internal/service/writer.go:318-323 | In an orderly log what was taken from a queue is, as a multiset, what was in its batches, what was released unwritten for a logged cause, and what awaits its batch |
| WriterLoop.LiveIsWritten | internal/service/writer.go:264-297 | Live messages are in batches in the order they were taken, all but a tail; until a live batch is given up, a write fails or the goroutine leaves, all but those that await their batch |
| WriterLoop.ActionsGrow | internal/service/writer.go:259-262 | Cancellation and the end of a queue never go back, whatever other goroutines do |
| WriterLoop.Writer.Apply | internal/service/writer.go:318-367 | Either the one logged event is the batch with exactly the leases gathered, or its context is cancelled and it says so; the leases are released on every path; an error has its cause |
| WriterLoop.Writer.WriteLive | internal/service/writer.go:264-297 | Unless suspended it ends with a batch written that starts with its first lease and holds all it took since, or with a cancellation under a cancelled context, or, with a limit above one and no timer, with the first lease quit; every exit releases what was taken |
| WriterLoop.Writer.GatherLive | internal/service/writer.go:275-296 | A live batch is ready only when it is full, the queue has ended or the timer fires, and is stopped only by a cancelled context |
| WriterLoop.Writer.WriteHistory | internal/service/writer.go:299-316 | Ends with a batch that starts with the pending lease and takes what the queue holds up to the smaller limit, or with a cancellation under a cancelled history context; all of it is released |
| WriterLoop.Writer.Wait | internal/service/writer.go:178-219 | A pending lease survives the blocking select only under a cancelled history context, so it is never overwritten; it leaves the loop exactly when it sees the cancellation or the shutdown |
| WriterLoop.Writer.TryTake | internal/service/queue.go:267-281 | Takes exactly the oldest lease of the queue as it is at that moment, and nothing else is removed |
| WriterLoop.Writer.DrainAndRelease | internal/service/queue.go:295-306 | Takes and releases lease after lease until the queue is found empty |
| WriterLoop.Writer.FinishShutdown | internal/service/writer.go:223-257 | Starts and writes no history batch, gives up the history queue, waits for the live queue to stop, writes one batch and empties the rest; every lease that ever entered a queue is released by then or still waits in it; an error has its cause |
| WriterLoop.Writer.Run | internal/service/writer.go:89-221 | For every interleaving what entered each queue is, in order, what was taken from it and what still waits in it, and however it returns each of these leases was released exactly as often as it entered or still waits; both queues were found empty and given up. The log is orderly and truthful: each lease taken is in a batch of its queue in order, or was quit or drained for a cause that is so (cancellation, no timer, shutdown, a cancelled history write, leaving). Without an error it returns only on shutdown or when both queues have ended; cancelled and broken have their causes; after a shutdown or cancellation that precedes it no history is started |
| Startup.StepKeepsInv | internal/service/service.go:309-324 | Every atomic step of Run and publisher keeps the handshake invariant |
| Startup.DecidedOnce | internal/service/service.go:309-324 | Committed and aborted exclude each other for good |
| Startup.AbortedIsSilent | internal/service/service.go:521-545 | An aborted start emits no update and never accepts a send |
| Startup.ReadyComesFirst | internal/service/service.go:486-563 | Whatever is emitted, the start was committed and the first update is Ready |
| Startup.OpenBeforeReady | internal/service/service.go:531-552 | At the step that emits the first update, which is Ready, sends are open |
| Startup.NothingIsDropped | internal/service/service.go:521-563 | Ready commits an undecided start; in a committed one every update taken stays with the publisher until it is emitted, alone and once, or the publisher leaves because the mailbox stopped or its context ended |
| Startup.PublishedWaits | internal/service/mailbox.go:41-93 | A published update that fits waits in the slot of its kind, where only a newer one replaces it, until the publisher takes it, lowest kind first, or leaves |
| Startup.CancelledEarlyAborts | internal/service/service.go:309-311 | A caller who cancels before Run first looks gets an aborted start whatever else happens, and no update is ever emitted |
| Startup.FinishedMeansLeft | internal/service/service.go:324-350 | When Run has returned the publisher has left, the mailbox is stopped, sends are closed and every lease taken was released |
| Startup.GateAndShutdown | internal/service/service.go:309-350 | Components start only after the race is decided, and once shutdown begins the publisher cannot reopen sends |
| Startup.LeasesReleasedOnce | internal/service/mailbox.go:41-121 | Each mailbox lease the publisher takes is released at most once, and exactly once when it has left |
| HistorySource.ChannelWithinTokens | internal/wa/fake_source.go:432-446 | While only received jobs are released, a channel never holds more jobs than its category has tokens out, so the full-channel branch is unreachable |
| HistorySource.TokenMeansCursor | internal/wa/fake_source.go:427-431 | With a token to spare there is a free cursor, whatever was released, so that branch is unreachable |
| HistorySource.NothingLeaks | internal/wa/fake_source.go:551-567 | With nothing held and nothing waiting every token is back and every cursor is free |
| HistorySource.AdmissibleByClass | internal/wa/fake_source.go:405-431 | A job is admissible exactly when it is well-formed, of a known class, new, within 256 jobs of the lifetime, and fewer than two metadata jobs, one on-demand job or one bulk job of its class are active |
| HistorySource.FakeSource.TryHistory | internal/wa/fake_source.go:386-447 | Admits exactly the well-formed, known-class, first-time jobs with a token, a place in their channel and one of 256 lifetime identifiers left, says full exactly when only the token or only the place is missing, and otherwise changes nothing; while only received jobs are released the place is never missing |
| HistorySource.FakeSource.NextHistory | internal/wa/fake_source.go:451-547 | Consecutive records from the cursor, as many as both limits allow, done exactly at the end; fails exactly when interrupted, malformed, for no active job, or when a record within reach cannot be generated or the first does not fit, and then leaves the cursor alone |
| HistorySource.ReleaseExact | internal/wa/fake_source.go:551-567 | Releasing an active job keeps every waiting job with its cursor and token if and only if the job was received before |
| HistorySource.FakeSource.ReleaseHistory | internal/wa/fake_source.go:551-567 | Frees cursor and token of any active job together, received or waiting, and is idempotent; every call is on record |
| HistorySource.WaitingReleaseFills | internal/wa/fake_source.go:440-446 | Admitting, releasing and admitting again without receiving reaches the full-channel branch |
| HistoryJobs.ReceiveSound | internal/service/history.go:138-149 | A received job was never received before, and its slot exists |
| HistoryJobs.ReleaseSound | internal/service/history.go:167-174 | A released job was held and never released before |
| HistoryJobs.ChunkSound | internal/service/history.go:69-80 | A generated chunk continues the job's records without gap or repetition, is done exactly when it reaches the job's own count, and is empty only when done |
| HistoryJobs.CompleteSound | internal/service/history.go:86-89 | A released job is complete when as many records were put as its specification says |
| HistoryJobs.SoundFronts | internal/service/history.go:81-89 | Of every admitted job a front of its records 0 to count-1 is on the queue, in order, each once, and of a completed job all of them |
| HistoryJobs.Transformer.Run | internal/service/history.go:28-118 | On every way out the calls of ReleaseHistory are exactly the jobs received, each once; each job's records on the queue are a front of its own, of a completed job all; a run that ends without an error has completed and released every job the source admitted. It ends cancelled only when it was cancelled, refused only with a generated chunk that the queue did not take, and broken only when the last request, for an active job, was interrupted or could not move within the limits |
| SqliteWriter.ReceiveKeeps | internal/store/sqlite_writer.go:318-322 | Receiving keeps transactions nonempty and within 50 writes and the order of requests |
| SqliteWriter.CountWithinWrites | internal/store/sqlite_writer.go:261-271 | A batch never has more requests than logical writes, so the array is not overrun |
| SqliteWriter.AcksAnswerOnce | internal/store/sqlite_writer.go:282-289 | Every request is answered once, in order, with the outcome of the transaction that carried it |
| SqliteWriter.BatchWriter.Flush | internal/store/sqlite_writer.go:272-292 | Closes the open batch, answers its requests and clears their slots |
| SqliteWriter.BatchWriter.DrainAndStop | internal/store/sqlite_writer.go:293-310 | The transactions end with exactly the queued requests, in order |
| SqliteWriter.BatchWriter.Run | internal/store/sqlite_writer.go:240-330 | For every order of arrivals and ready branches the transactions, the open batch and the queue together are, in order, exactly the requests that the events and the channel's free room let in. No transaction goes across a timer or a stop, and each ends at one, at 50 writes, or because the next request did not fit; everything received before the last timer or stop is in a closed transaction and has its one answer, as has every request after a stop; the timer is armed exactly while a batch is open |
| SqliteWriter.BatchWriter.React | internal/store/sqlite_writer.go:313-330 | One branch of the select: after a timer or a stop nothing is open and every request received has its one answer |
| SqliteShutdown.StepKeepsInv | internal/store/sqlite_writer.go:174-238 | Every step of submitters, closer and writer keeps the protocol invariant |
| SqliteShutdown.ShutdownDrains | internal/store/sqlite_writer.go:227-238 | Once the writer is done every admitted request was acknowledged exactly once and no refused one ever was |
| SqliteShutdown.AtMostOneAck | internal/store/sqlite_writer.go:185 | A mailbox of capacity one never fills twice |
| SqliteShutdown.NothingAfterStop | internal/store/sqlite_writer.go:217-237 | After the stop channel closes nothing is admitted |
| SqliteShutdown.BeginLetsIn | internal/store/sqlite_writer.go:174-183 | A call is let in exactly while requests are accepted and its size is legal |
| SqliteShutdown.FlushAnswers | internal/store/sqlite_writer.go:272-292 | In every reachable state a flush answers each request received so far exactly once, and a waiting submitter among them can go on |
| Utf8.BoundedIsRight | internal/model/store.go:522-540 | The result is well-formed UTF-8 within the limit, the front of the full replacement, and the flag is set exactly when source bytes were omitted |
| Utf8.ValidIsEncoding | internal/model/store.go:513-520 | A byte string is valid exactly when it is the encoding, section 3 of RFC 3629, of some sequence of Unicode scalar values |
| Utf8.PiecesTell | internal/model/store.go:522-540 | For the division of any byte string into encoded characters and bytes at which none begins, replacing leaves the characters and the encoding of U+FFFD for each other byte; the string is valid exactly when there is no such byte |
| Utf8.CutAsLateAsPossible | internal/model/store.go:530-532 | The text is cut between characters and one more would not fit |
| Utf8.CopyingAgrees | internal/model/store.go:513-520 | When the front that fits is valid, copying it is what the replacing loop would have returned |
| Utf8.Idempotent | internal/model/store.go:505-541 | Normalising twice changes nothing |
| Utf8.LongestValidFront | internal/model/store.go:505-541 | For well-formed text the result is its longest well-formed front that fits |
| Utf8.NormalizeBounded | internal/model/store.go:505-541 | The fast path and the loop compute the bounded replacement for every byte string and limit |
| Utf8.NormalizeText | internal/model/normalize.go:165-200 | The same with the retained-text limit |
| MessageWindow.WindowIsNewest | internal/tui/live.go:139-141 | After any deliveries, repeated or not, the window is the newest N of everything delivered, in order |
| MessageWindow.OrderDoesNotMatter | internal/tui/live.go:170-207 | Two delivery orders of the same messages show the same window |
| MessageWindow.PageGoesInFront | internal/tui/older_history.go:95-107 | The new messages of a page go in front, nearest first, as far as there is room; nothing loaded is evicted |
| MessageWindow.OlderPageExtends | internal/tui/older_history.go:95-155 | An accepted page leaves the last N of (its new messages ++ the window) if and only if every new message in it has a time |
| MessageWindow.AddedIsGrowth | internal/tui/older_history.go:95-126 | The number reported for a page that goes in front is what the window grew by: its new messages, as far as there was room |
| OlderHistory.OlderPageContinues | cmd/walite/older_history_worker.go:120-183 | From store to screen: a window that shows the newest n messages of a chat and asks for what is behind its oldest gets a page that passes its checks, and then shows the newest n + more, more being what was asked for and is stored, as far as its capacity goes; the number reported is the growth |
| MessageWindow.UntimedPageCounterexample | internal/tui/older_history.go:130-155 | A page that passes validation and lands below the window |
| MessageWindow.Chat.InsertBounded | internal/tui/live.go:170-195 | In place, the buffer becomes the newest N of the ordered insertion, and the index returned is the message's |
| MessageWindow.Chat.AddOlderPage | internal/tui/older_history.go:95-107 | The loop from the page's last message to its first applies the window's delivery and counts the messages that got in |
| MessageWindow.Chat.Compact | internal/tui/chat_state.go:197-213 | Exactly the newest 32 messages stay |
| MessageWindow.Chat.Expand | internal/tui/chat_state.go:185-195 | Nothing is lost |
| ReadReceipts.TrimThenPutAll | cmd/walite/read_receipt_worker.go:92-132 | Merging into a trimmed entry gives the same frontier as merging into everything |
| ReadReceipts.AdmissionOrder | cmd/walite/read_receipt_worker.go:98-118 | With senders fixed by identifier and time, the frontier does not depend on the order of admission |
| ReadReceipts.AdmissionOrderExactly | cmd/walite/read_receipt_worker.go:98-118 | Every order and repetition of the same items leaves the same pending entry if and only if the latest items of each kept identifier share their sender |
| ReadReceipts.SameHistorySameEntry | cmd/walite/read_receipt_worker.go:47-79 | Two entries with the same admitted messages behind them, in whatever order and grouping, are the same frontier |
| ReadReceipts.SenderCounterexample | cmd/walite/read_receipt_worker.go:109-113 | Two senders at one time make the order show |
| ReadReceipts.NewestOfSorted | cmd/walite/read_receipt_worker.go:121-130 | Sorting and keeping the last 32 is trimming to the newest 32 |
| ReadReceipts.Merge | cmd/walite/read_receipt_worker.go:92-132 | Fails exactly on a different chat or kind; otherwise an acceptable request with the newest 32 of both |
| ReadReceipts.Worker.Admit | cmd/walite/read_receipt_worker.go:47-79 | A pending chat keeps its place and merges, another one goes last while there is room; a refusal changes nothing; no chat has two entries and each entry is the newest 32 of what was admitted for it |
| ReadReceipts.Worker.Take | cmd/walite/read_receipt_worker.go:141-152 | Chats leave in first-admission order |

## Left out

- SQL, files, migrations, the text of errors, and `readSQLiteReactionSummary`: only the row effect of the three reaction statements is modelled.
- Media, display names, quotes beyond one opaque value, byte sizes of rows and the store's usage accounting: they do not decide which rows survive.
- Commands, notifications, rendering, sockets and the WhatsApp protocol, including how identities are parsed; the registry knows only "direct" and two servers.
- Waiting puts and takes, their waiter counters and wake channels: wake-ups are hints, so only the guarded state is modelled.
- Timers, fairness and liveness: safety per step, and termination where a measure exists. Timer values and batch ages are not modelled, only that the timer is armed exactly while a batch is open and that the batch is closed when it fires.
- Chat ordering by activity and selection movement in the user interface, which are local array edits.
- The bootstrap run that writes to the store beside the core writer: run results are for the single-writer store.
- The history ingester's own loop, which repeats the writer's decision per message, and the realtime coordinator.
- Status counters of the history source and the contents of generated records: a record is its job and index, its size a parameter.
- Runs.RunBatches: which batches the writer forms, and when a context is cancelled, is in the list of submissions; how the writer forms them is `WriterLoop`.
- WriterLoop.Writer.Run: the store, the result queue and live-event publication are one outcome per batch, chosen by the script; what a batch writes is `Retention`.
- WriterLoop.Writer.WriteLive: does not say how long it waits; a timer may fire at any time, and when it does the batch is written.
- OlderHistory.OlderPageContinues: the request to the linked phone when the cache holds nothing older is left out; a page is what the store holds when it is read.
- Startup.LeasesReleasedOnce: the mailbox's own replacements and its final drain release permits of slots nobody took; those belong to the budget model.

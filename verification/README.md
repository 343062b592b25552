# Minori's durable work, modelled in Dafny

Minori is a chat agent that answers messages and runs scheduled tasks. Everything it must not
lose or do twice lives in four tables: `processed_events`, `scheduled_runs`, `scheduled_tasks`
and `scheduled_task_revisions`. Message workers, the scheduled-run worker, the occurrence
dispatcher and members who edit tasks all work on these tables at the same time, crash, lose
their leases and commit late.

The model has three layers.

* **Tables and stores.** `Records`, `EventRows`, `RunRows` and `Tables` say what each
  transaction does as functions on table contents. `EventStore`, `RunStore`, `ScheduleStore`
  and `DispatchLoop` are the store classes and the poll loop: methods that rewrite one shared
  `Database` in place, proved to be exactly those transactions.
* **Protocols.** `Protocol` runs the transactions in any order, with `claimNext` split at the
  point where it waits for the task row. `MessageProtocol` and `ScheduledRunProtocol` follow
  one message and one scheduled run with every worker that ever claimed it; `ProgressReply` is
  the closure of one progress message. What a call carries was computed before its statement
  began, and that was before it committed; any time may pass in between. `Projection`,
  `MessageProjection` and `RunProjection` tie the layers: a row appears by an arrival or a
  `createDue` and moves only by accepted calls, claims, expiries and the like, and when the
  calls are those that workers in the right place make, on one clock, every run on the tables
  projects to a run of the single-row protocol that starts with that appearance and ends in
  the same row.
  `MessageWorker`, `ScheduledWorker`, `WriteAudit` and `ProgressHandle` are the code of the workers; `MessageWorker` and
  `ScheduledWorker` keep the history of what they do, and that history is proved to be a run
  of the protocol, so the theorems about runs hold of the code.
* **Algorithms.** `Citations` and `Sources` (citation markers), `Documents`, `Reader` and
  `ReaderKeys` (paged reading), `MeetingWindows` (calendar months).

Theorems over runs speak of every finite interleaving from empty tables. Assumptions are named
predicates, and where a promise fails without one there is a lemma that says exactly when it
holds (`ArrivalKeepsOrder`, `ArrivalKeepsHeads`, `StepKeepsChatsApart`, `FallbackNeedsLoss`
and `FallbackAfterArrivalNeedsLoss` with `LossAllowsFallback`, `UpdateSchedules`,
`ResumeSchedules`, `PollAbortsIff`, `StopKeepsTaskMatching`, `MonthLaterLength`,
`PrefixFindsPlainDocuments`) or a run that breaks it (`LateArrivalBreaksExclusion`,
`ReboundSelectionMeetsChat`, `FallbackAfterDelivery`, `SixteenthSend`,
`OvertakenUpdateStarves`).

## Where the code and its documentation differ

* `received_at` is the start of the inserting transaction, not its commit, so one conversation
  can have two events processing at once. The order of a conversation is kept exactly while
  arrivals rank after its claimed active events (`Admission.Orderly`). Exclusion needs less:
  it lasts while no arrival ranks before an event that is processing
  (`Exclusion.ArrivesBehind`), and such an arrival is claimed beside it by the next claim that
  finds a slot and no run in the chat.
* A worker computes its lease before the claim's transaction, which may wait. With claims that
  commit more than 910,909 ms later a reply can be sent a sixteenth time, every claim keeping
  its processing deadline.
* A run selected by `claimNext` can be paused, moved to another chat and resumed before it is
  started; it then starts beside a message of that chat.
* The fallback notice of a scheduled run can follow a result the transport accepted: only
  after `markDelivered` or the closing `finish` came back with an error while the claim owned
  the run, and then always if the fallback goes through.
* Updates and resumes compute the next due date before their transaction. If an occurrence is
  dispatched in between, the mutation brings it back. A poll that finds the task busy folds
  that occurrence once more and moves the due date on; every poll that finds it idle fails on
  the unique index, until the next occurrence comes. A failing task at the head of the list
  keeps the poll from every task behind it.
* `addUtcMonthClamped` goes through `Date.UTC`, which reads the years 0 to 99 as 1900 to 1999.
* A context without a display name is dropped when a task is read back, but pausing, resuming
  and deleting leave it in the task row. The tools resolve contexts to named chats
  (src/agent/tools.ts:132-145), so only another caller of the store can write one.
* The prefix by which a write invalidates cached pages is the document identifier as it is,
  while the keys hold it as JSON writes it. The tool's schema keeps the two equal.

## Model

| member | source | states |
|---|---|---|
| Admission.CapacityAlways | src/storage/event-store.ts:103-147 | In every reachable state at most four events and runs are processing together, at most one of them a run, and a selection that still holds the admission lock finds its slot and its chat free |
| Starting.OnlyLiveTasksStart | src/storage/scheduled-run-store.ts:196-212 | In every run, whichever step makes a scheduled run processing, its own task is active or in flight at that moment, whatever committed since the run was selected |
| Starting.SelectionAlways | src/storage/scheduled-run-store.ts:194-200 | What `claimNext` selected stays an existing run of the task it locks |
| Admission.ArrivalKeepsOrder | src/storage/schema.ts:41 | An arriving event keeps the conversation order if and only if it ranks after every claimed active event of its conversation |
| Exclusion.ArrivalKeepsHeads | src/storage/schema.ts:41 | An arriving event leaves every processing event at the head of its conversation if and only if it ranks after those processing in its own |
| Exclusion.OneEventPerConversation | src/storage/event-store.ts:112-141 | In every run in which no arrival ranks before a processing event, no conversation has two events processing |
| Exclusion.OrderlyRunsArriveBehind | src/storage/event-store.ts:112-141 | A run whose arrivals keep the conversation order is one whose arrivals rank after the processing events |
| Exclusion.OvertakingBreaksExclusion | src/storage/event-store.ts:112-147 | An arrival that does is claimed beside the processing event by the next claim with a free slot and no run in the chat |
| Admission.EarlierEventsAreTerminal | src/storage/event-store.ts:112-141 | With orderly arrivals every event before a claimed active event of its conversation is terminal |
| Admission.ClaimWaitsForEarlier | src/storage/event-store.ts:112-147 | Even without that assumption, a claim commits only when all earlier events of the conversation are terminal |
| Admission.TerminalEventsAreFinal | src/storage/event-store.ts:211-239 | A completed or failed event never changes again, over every run |
| Admission.StaleCallsChangeNothing | src/storage/event-store.ts:217-264 | A call fenced by another attempt than the one processing changes nothing |
| Admission.StepKeepsChatsApart | src/storage/scheduled-run-store.ts:174-214 | A step keeps messages and runs of one chat apart if and only if the run it starts still answers to a chat without a processing event |
| Admission.SelectedChatStaysFree | src/storage/scheduled-run-store.ts:188-200 | That condition holds whenever the selected run was not rebound to another chat |
| Admission.ChatsApartAlways | src/storage/scheduled-run-store.ts:188-193 | In every run without such a rebinding no chat has both a processing event and a processing run |
| Witnesses.LateArrivalBreaksExclusion | src/storage/schema.ts:41 | A run of four steps in which a late row with an earlier `received_at` makes two events of one conversation process together |
| Witnesses.ReboundSelectionMeetsChat | src/storage/schedule-store.ts:353-399 | A run in which pause, update and resume between the halves of `claimNext` start a run beside a processing event of its new chat |
| EventRows.CallsAreFenced | src/storage/event-store.ts:199-354 | Every accepted call on an event row is made by the attempt that owns it, except attaching a reaction, and none moves the conversation, the attempt number or what is written once |
| Coupling.CouplingAlways | src/storage/schema.ts:192-196 | In every reachable state a task has at most one active run, a queued run belongs to an active or in-flight task, an in-flight task is one-time with an active run, a done task has none, names are unique while reserved and reserved exactly while the task lives or is deleted under a processing run |
| Coupling.ReleasedNamesStayReleasedForever | src/storage/schedule-store.ts:311-404 | A task that released its name never reserves it again, and done and deleted tasks stay so |
| Coupling.ClaimedForever | src/storage/scheduled-run-store.ts:174-214 | A run that was claimed is never queued or cancelled again, and an ended one keeps its outcome |
| Coupling.RunsStartOnce | src/storage/scheduled-run-store.ts:200-206 | Over the whole table protocol no scheduled run is started twice |
| Frozen.FrozenAlways | src/storage/schedule-store.ts:209-292 | In every run that writes no unnamed context the revision log of a task is exactly versions 1 to current, its row repeats the current revision, and every run repeats the revision it names |
| Frozen.StopKeepsTaskMatching | src/storage/schedule-store.ts:76-108 | Pausing or deleting keeps the row equal to its revision if and only if the stored context has a display name |
| Frozen.UnnamedContextIsLost | src/storage/schedule-store.ts:101-103 | A concrete task with an unnamed context that stops matching its revision when it is paused |
| Frozen.RunsStayFrozen | src/storage/scheduled-run-store.ts:111-127 | No step changes the body of a run except resuming, which rebinds a cancelled one |
| Frozen.VersionsOnlyGrow | src/storage/schedule-store.ts:209-292 | Task versions never decrease |
| Frozen.OneMutationPerVersion | src/storage/schedule-store.ts:218-222 | Of all mutations of a task made for one version at most one succeeds, and the later ones change nothing |
| Liveness.NoDeadlock | src/storage/scheduled-run-store.ts:174-214 | With nothing processing, the lock free and something queued, once every retry instant has passed either `claimReady(1)` claims an event or `claimNext` starts a run |
| Liveness.SomeRunStarts | src/storage/scheduled-run-store.ts:177-206 | The earliest queued run is never blocked by the state of its task |
| Projection.EventRowsMoveOneByOne | src/storage/event-store.ts:103-380 | Whatever the transaction, one event row only stays, takes one accepted call, is claimed when queued and due, or loses an expired lease |
| Projection.RunRowsMoveOneByOne | src/storage/scheduled-run-store.ts:174-346 | The same for a run row: called, claimed, finished, expired, cancelled or rebound |
| Projection.EveryEventArrives | src/storage/event-store.ts:88-101 | Every event in a run's tables arrived in it, by an `enqueue` that left a fresh row |
| Projection.EveryRunIsCreated | src/storage/scheduled-run-store.ts:98-140 | Every scheduled run in a run's tables was created in it, by a `createDue` that copied its task |
| MessageProjection.MoveIsStep | src/storage/event-store.ts:103-380 | A move of an event row that its workers or gateway may make is a step of the message protocol to the same row |
| MessageProjection.EventRunsProject | src/worker/message-worker.ts:126-280 | For every run on the tables and every event in it whose calls keep the discipline, a run of the message protocol starts with the arrival and ends in the same row, however late the calls commit |
| MessageProjection.TablesReplyOnce | src/worker/message-worker.ts:158-280 | So the single-message safety, one delivered reply included, holds in every run on the tables |
| RunProjection.ScheduledRunsProject | src/schedule/worker.ts:44-166 | The same projection for one scheduled run, from the `createDue` that made it |
| RunProjection.TablesRunOnce | src/schedule/worker.ts:44-166 | So a scheduled run reaches the agent, sends its result and its fallback at most once in every run on the tables |
| MessageTheorems.WritesComeFromOneClaim | src/storage/agent-run-store.ts:64-105 | All external writes of one message come from a single claim attempt, over every run with crashes, expired leases and late calls |
| MessageTheorems.NoReplayAfterWrite | src/worker/message-worker.ts:293-305 | No claim after the one that committed the write mark runs the agent |
| MessageTheorems.RepliesOnce | src/worker/message-worker.ts:158-280 | `markReplyStarted` takes effect at most once, all reply sends of a message are equal, and a transport that deduplicates by key delivers at most one |
| MessageTheorems.FixedReplyIsKept | src/storage/event-store.ts:241-264 | The reply that was fixed stays in the row for every later claim |
| MessageTheorems.ProgressOnceAndBeforeReply | src/worker/message-worker.ts:324-344 | At most one progress message per message over all claims, and none in flight while its claim sends the reply |
| MessageTheorems.ReactionIsConserved | src/feishu/gateway.ts:71-106 | A reaction that was added is in exactly one place: awaiting attach, stored in an active row, or handed to one remover |
| MessageTiming.AtMostFifteenSends | src/worker/message-worker.ts:166-183 | With the default options a message's reply is sent at most fifteen times, in every run whose claims commit at most 910,909 ms after their lease was computed, however late its retries commit |
| LateClaims.SixteenthSend | src/worker/message-worker.ts:104-113 | A run with sixteen sends whose claims are at most one millisecond later than that, every worker step inside the processing deadline of its claim |
| MessageTiming.RetryWaits | src/worker/message-worker.ts:361-364 | From the instant it was computed at, every retry waits out the capped exponential back-off, whatever the database clamps and however late it commits |
| Patience.ProgressWaits | src/worker/progress-reply.ts:96-110 | Over every run, no progress message is sent before the message is twenty seconds old |
| ProgressReply.NothingInFlightAfterSettle | src/worker/progress-reply.ts:67-127 | For every interleaving of timer, marker, delivery and settle calls, nothing is in flight at or after the return of a settle call |
| ScheduledRunProtocol.EverythingOnce | src/schedule/worker.ts:44-166 | A scheduled run is claimed, run by the agent, delivered and answered by a fallback at most once each, its attempt number is 0 or 1 accordingly, and nothing is prepared for delivery after lease recovery failed it |
| ScheduledRunProtocol.SentWasPrepared | src/schedule/worker.ts:108-128 | In every run, the text that is sent is the one `prepareDelivery` stored in the row before |
| ScheduledRunProtocol.FallbackNeedsLoss | src/schedule/worker.ts:113-155 | In every run, a delivered run has a fallback only after its claim, owning it, lost the answer of `markDelivered` or the closing `finish` |
| ScheduledRunProtocol.LossAllowsFallback | src/schedule/worker.ts:113-155 | After any of these errors the fallback can be begun and sent at once, in every run; a delivery is recorded beside it exactly for the two losses of `FallbackNeedsLoss` |
| ScheduledRunProtocol.FallbackAfterArrivalNeedsLoss | src/schedule/worker.ts:113-155 | In every run, once the transport has accepted the result, recorded or not, a fallback needs an error of `markDelivered` or of the closing `finish`, at that moment or later, while the claim owns the run |
| ScheduledRunProtocol.FallbackAfterDelivery | src/schedule/worker.ts:113-155 | A run that delivers its result and still sends the fallback |
| Dispatcher.LatestIsLast | src/schedule/dispatcher.ts:32-37 | `latestAtOrBefore` over an ideal calendar is the last occurrence of the interval, and absent exactly when there is none |
| Folding.FoldingRefinesBacklog | src/schedule/dispatcher.ts:21-77 | At every point of every history between mutations, the two date columns represent a full backlog that accounts for every occurrence since the mutation and for the one still owed from before it |
| Folding.PollDispatches | src/storage/scheduled-run-store.ts:98-140 | One poll of the row is one dispatch of the full backlog, and the run it creates is for the latest due occurrence |
| Folding.EveryOccurrenceAccounted | src/storage/scheduled-run-store.ts:98-140 | Every past occurrence, the carried one included, is exactly one of run, superseded by a later run, or pending |
| Folding.ColumnsMean | src/schedule/dispatcher.ts:21-44 | `next_due_at` is the first occurrence after the last poll; `latest_missed_at` is the last occurrence between the last run and it, or the carried one while nothing has run, and absent if there is neither |
| Folding.OtherStepsDoNotDisturb | src/storage/scheduled-run-store.ts:216-346 | Every transaction that is neither `createDue` nor a mutation of the task leaves its schedule alone |
| Rescheduling.CreationSchedules | src/storage/schedule-store.ts:158-207 | `create` leaves a task whose backlog starts empty |
| Rescheduling.UpdateSchedules | src/storage/schedule-store.ts:209-292 | An update with a new due date keeps the folded occurrence, and a fresh backlog that carries it describes the row if and only if nothing was dispatched since the date was computed |
| Rescheduling.ResumeSchedules | src/storage/schedule-store.ts:298-305 | The same for a resume |
| Rescheduling.StopKeepsSettled | src/storage/schedule-store.ts:311-404 | A pause in between changes neither what is owed nor what was dispatched |
| Rescheduling.OtherUpdatesContinue | src/storage/schedule-store.ts:209-292 | An update that leaves the schedule alone continues the backlog it finds |
| StaleDates.PollAbortsIff | src/storage/scheduled-run-store.ts:98-140 | For any row, a poll's `createDue` throws if and only if the task is idle and the occurrence the poll is about has its run already, or there is no instruction or no new identifier to make a run with |
| StaleDates.UpdateMakesStale | src/agent/tools.ts:513-520 | An update whose due date was computed before an occurrence was dispatched leaves the task owing that occurrence again |
| StaleDates.StaleDueAborts | src/schedule/dispatcher.ts:21-44 | Such a poll, before the next occurrence, throws if and only if it finds the task idle; a busy one folds the occurrence, and the task owes it still |
| StaleDates.StarvesUntilNext | src/schedule/dispatcher.ts:53-77 | In every run, until the next occurrence comes or a member mutates it, such a task gets no new run and makes every idle poll throw |
| StaleDates.NextOccurrenceRuns | src/schedule/dispatcher.ts:32-43 | After that an idle poll makes the run of a newer occurrence |
| StaleDates.TimelyPollsSucceed | src/schedule/dispatcher.ts:53-77 | In every run whose dispatches are polls and whose new due dates are fresh, no poll of a task with an instruction and a new identifier throws |
| StaleDates.OvertakenUpdateStarves | src/agent/tools.ts:513-520 | A run that gets there: a dispatch overtakes an update, a busy poll folds, the run ends, and every poll before the next occurrence throws |
| Rescheduling.TidyAlways | src/schedule/dispatcher.ts:53-77 | In every run whose dispatches are polls and whose new due dates are fresh, what a task owes is past, newer than its runs and without a run, so the next mutation starts a fresh backlog |
| EventStore.EventStore.Enqueue | src/storage/event-store.ts:88-101 | Inserts the fresh row exactly for a new event; a duplicate changes nothing |
| EventStore.EventStore.ClaimReady | src/storage/event-store.ts:103-147 | Claims only unlocked messages that are queued and due, first of their conversation and without a run in their chat, in the order of arrival, while fewer than four are processing; passes over none of them; writes only the claimed rows; and is a step of the protocol |
| EventStore.EventStore.AttachProcessingReaction | src/storage/event-store.ts:199-209 | Attaches exactly to an active row without a reaction |
| EventStore.EventStore.Complete | src/storage/event-store.ts:211-239 | Ends the row of the owning claim and hands its reaction over, or is stale and changes nothing |
| EventStore.EventStore.MarkReplyStarted | src/storage/event-store.ts:241-264 | Fixes key, text and kind for the owning claim only |
| EventStore.EventStore.MarkProgressAttempted | src/storage/event-store.ts:266-282 | Admits exactly the owning claim of a row with neither reply nor progress |
| EventStore.EventStore.ConfirmProgressSent | src/storage/event-store.ts:284-301 | Records a progress message once, after it was admitted |
| EventStore.EventStore.MarkReplyUncertain | src/storage/event-store.ts:303-329 | Fails the row of the owning claim and hands its reaction over, or is stale |
| EventStore.EventStore.Retry | src/storage/event-store.ts:331-354 | Queues the row again with the error, at the requested instant clamped to 250 ms to 5 minutes from now |
| EventStore.EventStore.RecoverExpiredLeases | src/storage/event-store.ts:356-380 | Requeues at the database's instant only expired unlocked rows, those that lapsed first when the limit cuts, and all of them otherwise; no other row moves |
| EventStore.EventStore.BeginWrite | src/storage/agent-run-store.ts:64-105 | Marks the write boundary for the owning claim, or changes nothing |
| RunStore.RunStore.CreateDue | src/storage/scheduled-run-store.ts:75-143 | Which answer a dispatch gets, in every case, and the whole new state: a new run with the task's current body, or the occurrence folded into the task; an abort changes nothing |
| RunStore.RunStore.ClaimNext | src/storage/scheduled-run-store.ts:174-214 | Starts a run only if no message is due, no run and fewer than four messages are processing, none of them in its chat, no startable run comes before it and its task is live; and leaves none waiting unless the first startable one belongs to a task that is not live |
| RunStore.RunStore.PrepareDelivery | src/storage/scheduled-run-store.ts:216-229 | Succeeds exactly once for the owning claim |
| RunStore.RunStore.ExtendLease | src/storage/scheduled-run-store.ts:231-241 | Succeeds exactly for the owning claim with a lease that has not passed |
| RunStore.RunStore.MarkDelivered | src/storage/scheduled-run-store.ts:243-251 | Records the message of a prepared delivery once |
| RunStore.RunStore.BeginFallback | src/storage/scheduled-run-store.ts:253-262 | Begins the fallback once, for the owning claim |
| RunStore.RunStore.Finish | src/storage/scheduled-run-store.ts:279-311 | Ends the run of the owning claim and, with it, a one-time task and the name of a one-time or deleted one; otherwise changes nothing |
| RunStore.RunStore.RecoverListed | src/storage/scheduled-run-store.ts:320-344 | Of the listed rows, in whatever state they have come to, fails and counts exactly those whose lease is expired, and ends exactly their tasks |
| RunStore.RunStore.RecoverExpired | src/storage/scheduled-run-store.ts:313-346 | Fails every run with an expired lease, ends exactly their tasks, and counts them |
| ScheduleStore.ScheduleStore.Create | src/storage/schedule-store.ts:158-207 | A task with its first revision, or a name conflict or abort without change |
| ScheduleStore.ScheduleStore.UpdateTask | src/storage/schedule-store.ts:209-292 | For every column and for the new revision, the requested value where one was given and the current one otherwise; one version more; everything else as it was; every refusal; and the version of a run that is still queued with the old body |
| ScheduleStore.ScheduleStore.Halt | src/storage/schedule-store.ts:311-404 | Pause and delete: the state, one version more, no due date, the name kept or let go, exactly the queued runs of the task cancelled, and a revision that repeats the task; every refusal changes nothing |
| ScheduleStore.ScheduleStore.ResumeTask | src/storage/schedule-store.ts:311-404 | Resume: the latest cancelled run of a one-time task is queued again with the body of the new version, and otherwise the task is active with the requested date; every refusal changes nothing |
| DispatchLoop.ListDispatchable | src/storage/schedule-store.ts:149-157 | Exactly the active tasks with a date that has come or a missed occurrence, up to the limit, the longest waiting first, and nothing earlier left out |
| DispatchLoop.PollOnce | src/schedule/dispatcher.ts:53-77 | Reading the due tasks once is as good as one atomic poll per listed task, up to the first that throws, and the poll fails exactly if one does; `created` counts the new runs and `folded` the turns that fold, and every due task is created or folded |
| DispatchLoop.StaleHeadBlocksPoll | src/schedule/dispatcher.ts:61-80 | When the first listed task owes an occurrence that has its run, the poll leaves the whole database as it was |
| MessageWorker.Process | src/worker/message-worker.ts:126-280 | One claim from its first look to its end, by what the world answers: when there is a reply and exactly what it says, in each of the cases unsupported, after a write, answered, failed and already fixed; whether the agent runs; the whole row afterwards; the reaction handed over; and a history that is a run of the protocol |
| MessageWorker.Prepare | src/worker/message-worker.ts:282-322 | Which reply a claim comes to have, from the event and the world: it is fixed in the row under the event's key exactly if the claim owns the row and the call comes back in time, and otherwise the claim is over |
| MessageWorker.Persist | src/worker/message-worker.ts:324-344 | The progress message is settled and the reply fixed before it may be sent; a fixed reply that came too late is given back, and the row says so |
| MessageWorker.GiveUp | src/worker/message-worker.ts:366-386 | Retry after 30 seconds doubled per attempt, five minutes at most and two at least while the deadline drains, or completion with an error from the third attempt on without a reply, handing exactly the row's reaction over |
| MessageWorker.ProcessNext | src/worker/message-worker.ts:104-113 | Claiming and processing in one: only a message that waits for nothing is processed, and the first of them with a free slot is |
| MessageWorker.CodeIsSafe | src/worker/message-worker.ts:126-386 | The theorems about runs, read off the history of the code |
| MessageWorker.Handle | src/feishu/gateway.ts:71-106 | A new message is stored as a fresh row and reacted to, with the reaction in its row; a duplicate changes nothing |
| MessageWorker.Attach | src/feishu/gateway.ts:82-104 | In whatever state the message has come to, the reaction is taken back exactly when the row does not take it |
| WriteAudit.WriteAudit.Run | src/agent/run.ts:186-256 | No write without a committed mark of the owning claim; a receipt says succeeded or failed only if that is known and recorded; an unanswered mark is logged as unknown |
| ScheduledWorker.Process | src/schedule/worker.ts:44-166 | One claim of a scheduled run: the agent's text, or the notice that it failed, is sent exactly if the claim holds its lease at every renewal and the delivery is prepared; how the run then ends; it reports a delivery exactly when all calls after the send came back well, and a delivered run gets a fallback exactly when one of the two answers was lost; its history is a run of the protocol |
| ScheduledWorker.FallBack | src/schedule/worker.ts:131-155 | One fallback at most, and an end as failed or uncertain according to the transport's answer |
| ScheduledWorker.ProcessOne | src/schedule/worker.ts:46-48 | A run that was claimed before is never claimed again, and the first that could start is claimed if its task is live |
| ProgressHandle.ProgressHandle.Settle | src/worker/progress-reply.ts:112-126 | When `settle` returns nothing is in flight and no timer is left |
| ProgressHandle.ProgressHandle.constructor | src/worker/progress-reply.ts:29-110 | A progress message is attempted at once for a message of twenty seconds or more, by the timer for a younger one, and never for one with a reply, a progress message or no need of the agent |
| ProgressHandle.ProgressHandle.FinishAttempt | src/worker/progress-reply.ts:67-95 | An attempt sends exactly when it was admitted before any settling |
| Citations.MaskMarkdownCode | src/agent/sources.ts:28-55 | The text with exactly the code lines blanked, of the same length |
| Citations.VisibleMarkersAreReal | src/agent/sources.ts:57-69 | A marker found in the masked text stands at the same offsets of the original, outside code |
| Citations.FoundMarkersAreReal | src/agent/sources.ts:57-69 | All markers found are bracketed digits of the original, in order and apart, outside code |
| Citations.MarkersAreCitations | src/agent/sources.ts:64-69 | The scan finds exactly the bracketed digits whose next unit that is not white space is neither an open parenthesis nor a colon |
| Citations.NextLineIs | src/agent/sources.ts:35-53 | A line is code in an open fence, if it opens one, or if it is indented, and it closes or opens the fence for the next one, unit by unit as the expressions say |
| Citations.CodeByLine | src/agent/sources.ts:28-55 | Code is marked line by line, each line as a whole |
| Citations.TicksPairUp | src/agent/sources.ts:61 | A unit is inline code exactly if it stands behind an odd number of ticks of its line with another one to come, or is such a tick |
| Citations.QuotesAreLines | src/agent/sources.ts:62 | A unit is quoted exactly if its line begins with `>` |
| Citations.WhatIsHidden | src/agent/sources.ts:57-62 | Exactly these units are hidden, each layer looking at what the one before has left |
| Citations.StripUnreadMarkers | src/agent/sources.ts:71-84 | The output is the text without the cuts; every visible citation with an unregistered number is cut, with the white space unit before it or else the one after, and nothing else is |
| Citations.CutsAreUnreadMarkers | src/agent/sources.ts:71-84 | Every cut is one unread marker with at most one adjacent white space unit |
| Citations.ReadMarkersSurvive | src/agent/sources.ts:71-84 | Every marker with a registered id is in the output, unit for unit |
| Citations.OnlyCutsAreMissing | src/agent/sources.ts:71-84 | The output is shorter by exactly the cuts |
| Sources.SourceRegistry.Register | src/agent/sources.ts:90-100 | A new URL gets the next number, a known one keeps its source |
| Sources.SourceRegistry.Finalize | src/agent/sources.ts:105-112 | The same for the answer: every visible citation whose number was not given out is cut, and nothing else |
| Sources.IdsAreOneToN | src/agent/sources.ts:86-104 | The registered ids are exactly 1 to the number of sources |
| Documents.SplitRebuilds | src/agent/tools.ts:158-161 | The sections, put together, are the document |
| Documents.SplitsAtHeadings | src/agent/tools.ts:158-161 | A section starts at an offset inside the text if and only if a heading does: a line that begins with one to six hashes and white space |
| Documents.OrderIsPermutation | src/agent/tools.ts:163-181 | The order of sections is a permutation for every mode, query and scoring |
| Documents.Ranking | src/agent/tools.ts:166-173 | Best score first, ties by position, every section once |
| Documents.SectionsInOrder | src/agent/tools.ts:163-181 | For a query in relevant mode the first section has the best score, ties by position, and each section, when its rank comes up, is shown with the one before and the one after it, unless shown before; in full mode and for blank queries the sections stand as they are |
| Documents.PagesShowSections | src/agent/tools.ts:163-203 | The pages of any mode and query, put together, are the sections in that order, each once |
| Documents.PaginateSections | src/agent/tools.ts:183-203 | Pouring sections into pages gives the plain 12,000-unit chunks of the concatenation |
| Documents.PaginateText | src/agent/meeting-tools.ts:149-155 | The meeting tool's pages are the same chunks |
| Documents.ChunksRebuild | src/agent/tools.ts:183-203 | The chunks, put together, are the text |
| Documents.FullPagesRebuild | src/agent/tools.ts:183-203 | In full mode the pages rebuild the document |
| Reader.DocumentReader.FetchDocument | src/agent/tools.ts:305-333 | One read of the tool, caches and cursors included |
| Reader.ReadCachesOnce | src/agent/tools.ts:227-257 | A document is fetched once and its pages for a mode and query are made once, from the cached document |
| Reader.ReadServesPage | src/agent/tools.ts:305-333 | The page served is the one the key's own cursor names, or the first, with a new cursor exactly when a page follows |
| Reader.WriteStartsOver | src/agent/tools.ts:239-248 | After any history and a write, the next read of the document serves the first page of what the service returns now, whatever cursor it comes with |
| Reader.WriteSparesOthers | src/agent/tools.ts:239-248 | A write does not show in the reads of another document |
| Reader.ReadServesItsKey | src/agent/tools.ts:305-333 | After any reads and writes a read serves a page of its own key, the one its cursor names or the first |
| Reader.OthersKeepDocument | src/agent/tools.ts:227-257 | Other reads and writes of other documents keep a document and its cursors |
| Reader.FollowingServesEveryPage | src/agent/tools.ts:305-333 | Following the cursors from the first page, with other work in between, serves every page once and in order, and in full mode rebuilds the document |
| ReaderKeys.KeyTextsDiffer | src/agent/tools.ts:306 | The JSON texts of two keys are equal only if document, mode and query are |
| ReaderKeys.PrefixFindsItsDocument | src/agent/tools.ts:239-248 | For the documents the schema admits, a write finds every key of its document and no other |
| ReaderKeys.PrefixFindsPlainDocuments | src/agent/tools.ts:239-248 | Beyond the schema, a write finds its own document's keys if and only if JSON writes the document unescaped |
| MeetingWindows.SplitProviderWindows | src/agent/meeting-tools.ts:110-128 | The windows abut and cover the range, each but the last ends a month after its start, and only an empty range is refused |
| MeetingWindows.MonthLaterLength | src/agent/meeting-tools.ts:93-108 | A month later is at most 31 days later if and only if the target year is not one of 0 to 99, and at least 28 days later always |
| MeetingWindows.MonthLaterDate | src/agent/meeting-tools.ts:93-108 | A month later is the same time in the next month, on the same day, or on the last day of the month if it has no such day |
| MeetingWindows.MonthLaterYear | src/agent/meeting-tools.ts:93-108 | A month after a date of the years 0 to 98 falls into the twentieth century |
| MeetingWindows.WindowsAreMonths | src/agent/meeting-tools.ts:110-128 | From year 100 on every window but the last is 28 to 31 days long |
| MeetingWindows.WindowCount | src/agent/meeting-tools.ts:110-128 | There are at most as many windows as 28-day stretches in the range, rounded up |
| MeetingWindows.CivilIsUnique | src/agent/meeting-tools.ts:93-108 | An instant has one UTC date |

## Left out

- MessageTiming.AtMostFifteenSends: assumes one clock.
- MessageProjection.EventRunsProject: assumes one clock, and that only its own workers and the gateway call on the event.
- Patience.ProgressWaits: a timer never fires before its delay has passed.
- MessageWorker.Process: runs alone between its calls; what other workers do in between is the subject of `MessageProtocol`. The texts of control replies are placeholders, and the progress message is only settled there.
- MessageWorker.Attach: a reaction or store call that throws after it took effect.
- ScheduledWorker.Process: runs alone between its calls, as above. A task that has vanished is a step of the protocol only; the store never deletes tasks.
- RunStore.RunStore.RecoverListed: other transactions between two of its row transactions, and the clock moving on between them; both are in `Protocol`.
- EventStore.EventStore.MarkReplyStarted: always with a prepared reply; no caller omits it.
- DispatchLoop.PollOnce: two polls that overlap, since reading a task and its `createDue` are one step.
- Folding.FoldingRefinesBacklog: an ideal calendar; cron expressions, time zones and daylight saving are not part of this model.
- Reader.DocumentReader.FetchDocument: failed fetches that stay cached, reads that race with a write, and the source it registers.
- Documents.OrderIsPermutation: how a section is scored is a parameter.
- ReaderKeys.KeyTextsDiffer: queries with unpaired surrogates, which JSON escapes.
- MeetingWindows.SplitProviderWindows: instants that are not finite, and the limits and text form of dates.
- Citations.StripUnreadMarkers: identifiers are exact numbers, where the source rounds very long digit runs.
- Sources.SourceRegistry.Register: normalising titles and URLs.
- Identifiers are integers, names are taken as already lower-cased, and reaction identifiers are not empty. The hash that makes idempotency keys is injective.
- Columns nothing decides on: message payloads, `finishFallback`, latest run status, creators, origins, and completed, deleted and updated instants.
- `claim` of the run store, which no worker calls, and `cancelQueuedForTask`, which `transition` does in place.
- Purging of old bodies, which would only weaken the revision invariant.
- Worker loops, timers, shutdown, logging, transports, model calls and tools other than document reading.
- Search rows, token budgets, name lookup and group history.

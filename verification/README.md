# The agent runner: scheduler, sessions, message codes

This project models the stateful core of `agent-runner` in Dafny and proves what it keeps over
whole runs. `dafny verify dfyconfig.toml` checks everything.

**Scheduler.** `SchedulerSpec.dfy` gives `admit` and `finish` as functions on a value with the five
tables (running, queued, ready, recent, limits); `Scheduler.dfy` is the class that updates those
tables in place and is proved to compute these functions. `RunSystem.dfy` adds the payload table and
the workers in flight as a transition system: one step is one mutex-protected block (`submit`, or the
end of `run_task`), in any order. `RunScheduler.dfy` is the object with the two methods.
`Safety.dfy` and `Latency.dfy` hold the results about every run, `Draining.dfy` and `Promise.dfy`
those about runs that let nothing more in, `Starvation.dfy` those about tasks that keep coming,
`Listing.dfy` the snapshot's order. `finish` may be called for any conversation in the model, as in the code; that it is
only ever called for a running one is proved of the surrounding system, not assumed of the class.

**Sessions.** `SessionSpec.dfy` gives the SQL statements and the procedures built from them on two
tables; `SessionStore.dfy` is the class; `SessionAnswers.dfy` says what each procedure writes, returns or
refuses with; `Retry.dfy` and `Executor.dfy` add one whole `execute` and a reader of its command lines.
`ExecMachine.dfy` models any number of `execute` calls interleaved between single SQL statements,
`AliasRace.dfy` what that interleaving can do to an alias, and `Alone.dfy` proves that a call nobody
interrupts behaves as the sequential procedures. `Exclusive.dfy` says what holds when calls of one
conversation do not overlap, `Overlap.dfy` what overlapping calls can do. `Joint.dfy` is the product of
scheduler and calls: workers in flight make the calls, and complete only when they have none unfinished.
`KeyEncoding.dfy` treats the joined keys.

**CQ codes** (OneBot 11, message string format). `CqSpec.dfy` gives printer and parser as functions,
`CqCodec.dfy` the loops over cursor and buffer, `CqRoundTrip.dfy` and `CqMessages.dfy` the round trips.
`CqRaw.dfy` treats every raw message whatever, `CqReply.dfy` the reply token of every compiled one, and
`CqSegments.dfy` reads every compiled message back with a reader of its own.

**Agent output.** `NormalizerSpec.dfy`, `Normalizer.dfy` and `NormalizerRoundTrip.dfy` do the same for
the fenced action blocks; `ItemRules.dfy` states what items ask for and that the plan holds exactly that;
`Markdown.dfy` and `Links.dfy` treat the degrading of lines and of links.

`Wrappers.dfy`, `Text.dfy` and `Protocol.dfy` hold shared datatypes and facts about strings.

## What the proofs showed

- `finish` on a conversation that is queued but not running starts one run more than the limit,
  because the promotion at `agent-runner/src/scheduler.rs:123-127` tests no capacity. The exact
  condition under which `finish` keeps the invariant is `FinishKeepsValidExactly`; the surrounding
  server always meets it (`EveryCompletionIsItsOwn`).
- The number told to a task queued for a busy conversation, running or itself waiting for a slot, is
  exact in completions of that conversation (`QueuedBehindBusy`).
- With nothing more let in, a task queued for an idle conversation may have to wait for exactly as many
  completions as tasks waited before it, and one more starts it (`IdleWaitExactly`).
- As a bound on completions of any conversation, with nothing more let in, the number told holds exactly
  when the conversation was idle or is the only one running (`ToldBoundsWaitExactly`). It never holds for
  a task that joins a conversation which is itself still waiting for a slot
  (`WaitingConversationIsToldTooLittle`): with one slot, X running and A holding one task, a second task
  of A is told 1 and still waits after the next completion.
- When tasks keep coming, a ready task may wait through any number of completions, unless it heads the
  ready queue, the queue is full, and no running conversation has anything queued; then it starts with
  the next completion (`WaitUnboundedExactly`, and `IdleWaitUnboundedExactly` for what can be seen
  before the submission).
- `docs/superpowers/specs/2026-04-27-async-conversation-scheduler-design.md` counts, for an idle
  conversation, active tasks and ready head tasks (lines 108-115); the code counts every waiting task.
  The same document makes promotion in the same conversation depend on free global capacity
  (lines 84-85); the code does not test it. The model follows the code in both.
- An alias is validated and written by separate SQL statements. Some interleaving of any given calls
  moves an alias exactly when two of them give one external id to different sessions
  (`AliasMovesExactly`). An external id spelled like a session key hides that session from a lookup by
  key (`LoadThenGetByKey`). `reset_bound_session` does not validate at
  all; it keeps aliases exactly when the alias was free (`ResetBoundMovesAliasExactly`).
- Joined keys can collide. Two conversation keys collide exactly as `KeysCollideExactly` says, two
  session keys as `SessionKeysCollideExactly` says. A plain account is not enough: ("A", "x::y") and
  ("A::x", "y") share the key "A::x::y". A pair shares its key with no other exactly when neither
  component holds a separator, the account does not end in a colon and the conversation id does not begin
  with one (`UniqueKeyExactly`); for session keys the account may not begin with a colon either
  (`UniqueSessionKeyExactly`). A conversation whose session key is taken is refused
  (`TakenKeyIsRefused`).
- Calls made by scheduled tasks never overlap within a conversation, so each launches with the id stored at
  that moment (`ScheduledLaunchesUseStoredId`). Among calls in general, one may launch with an id that
  another has replaced exactly when another one is for the same conversation (`GoesStaleExactly`).
- The markdown loop takes the first bracket for the opening one. Every line splits into links, stray
  brackets and text (`EveryLineSplits`), and its text stays as written exactly when a stray bracket is
  followed, up to the next link, by nothing but brackets (`LinksAreShownExactly`): "[note] see [doc](u)"
  becomes "note] see [doc: u".
- A media reference is printed unescaped: a compiled message reads back as its parts exactly when no
  reference holds a closing bracket (`CompiledReadsExactly`).
- The reply token of a compiled reply is left in the parsed text exactly when the message mentions
  someone, media references included (`ReplyTextCleanExactly`).
- An at-code or a reply token that is never closed, or an action block that is not, makes the text between
  it and the last closed one appear twice; otherwise texts are kept (`RawShownExactly`,
  `StripKeepsExactly`, `TextKeptExactly`, for every input by `EveryRawSplits` and `EveryOutputSplits`).

## Assumptions

- A new task id was not submitted before; a new claude session id was not stored before (UUIDs).
- A mutex-protected block, and a single SQL statement outside a transaction, is one atomic step. The
  alias lookup of a validation and the fetch of the row named in its error count as one statement.
- A worker counts as in flight from the moment the lock that started it is released. It ends with
  an arbitrary terminal state; it does not panic before its completion block. It makes one call at a time.
- Clock readings are parameters. The iteration order of a hash map is an arbitrary choice.
- Counts are unbounded integers. Strings are sequences of Unicode scalar values, compared
  lexicographically, which is also the order of their UTF-8 bytes.
- The JSON decoder of action blocks is an arbitrary function from text to an optional block.

## Model

| member | source | states |
|---|---|---|
| SchedulerSpec.WaitingWithout | agent-runner/src/scheduler.rs:185-187 | the waiting count is a sum over the queue table that does not depend on the order of summation |
| SchedulerSpec.AdmitKeepsValid | agent-runner/src/scheduler.rs:77-105 | admitting any task, whatever the outcome, keeps ready queue exact, limits met, and no slot idle while a conversation is ready |
| SchedulerSpec.AdmissionExactly | agent-runner/src/scheduler.rs:77-105 | in a valid state a task starts at once if and only if a slot is free and its conversation has no run; it is refused if and only if it cannot start and the waiting count has reached the depth limit |
| SchedulerSpec.FinishClosedForm | agent-runner/src/scheduler.rs:107-145 | called for a running conversation, the loop returns at most one task: the conversation's own next one, else the head of the first ready conversation; both `continue` branches are dead |
| SchedulerSpec.HandoverCounts | agent-runner/src/scheduler.rs:107-145 | running and waiting counts after a finish: the slot is handed on and one task fewer waits, or nothing waited and one slot is freed |
| SchedulerSpec.HandoverKeepsValid | agent-runner/src/scheduler.rs:122-144 | the hand-over of a slot keeps the whole invariant |
| SchedulerSpec.FinishKeepsValidExactly | agent-runner/src/scheduler.rs:107-145 | finish keeps the invariant if and only if its conversation is running or has nothing queued; otherwise it exceeds the concurrency limit |
| Scheduling.SchedulerState.constructor | agent-runner/src/scheduler.rs:66-75 | the configured limits, with at least one slot, everything empty, invariant established |
| Scheduling.SchedulerState.WaitingCount | agent-runner/src/scheduler.rs:185-187 | the loop over the queue table computes the sum of the queue lengths |
| Scheduling.SchedulerState.TasksAheadFor | agent-runner/src/scheduler.rs:171-183 | own running and queued tasks for a busy conversation, else all running and waiting ones |
| Scheduling.SchedulerState.PushReadyConversation | agent-runner/src/scheduler.rs:189-197 | appends the conversation unless it is there |
| Scheduling.SchedulerState.PopReadyConversation | agent-runner/src/scheduler.rs:199-201 | removes and returns the first ready conversation, none when empty |
| Scheduling.SchedulerState.PopNextForConversation | agent-runner/src/scheduler.rs:203-214 | removes and returns the head of one queue and drops an emptied queue |
| Scheduling.SchedulerState.PushTerminalSummary | agent-runner/src/scheduler.rs:216-221 | appends to the history and drops the oldest entry beyond sixteen |
| Scheduling.SchedulerState.AdmitTask | agent-runner/src/scheduler.rs:77-105 | in-place admit computes the specified state and answer and keeps the invariant |
| Scheduling.SchedulerState.FinishRun | agent-runner/src/scheduler.rs:107-145 | in-place finish computes the specified state and list for any conversation; it keeps the invariant if and only if the conversation was running or had nothing queued |
| Scheduling.SchedulerState.FillSlots | agent-runner/src/scheduler.rs:129-142 | the loop that fills free slots terminates and computes the specified state and list |
| Scheduling.SchedulerState.TakeSnapshot | agent-runner/src/scheduler.rs:147-159 | counts, history, and a key-sorted listing of exactly the running tasks, from any iteration order |
| Listing.ListingUnique | agent-runner/src/scheduler.rs:147-150 | there is only one key-sorted listing of the running table |
| Listing.LessExactly | agent-runner/src/scheduler.rs:147-150 | the order of the listing is dictionary order |
| Listing.InsertLists | agent-runner/src/scheduler.rs:147-150 | sorting one more task in keeps a strictly sorted listing of exactly the tasks taken so far |
| RunSystem.SubmitKeepsInvariant | agent-runner/src/server.rs:157-199 | the locked block of submit keeps the invariant of all tables together: scheduler, payload table, workers, per-conversation history |
| RunSystem.CompleteKeepsInvariant | agent-runner/src/server.rs:255-269 | the locked block that ends a run keeps the same invariant |
| RunSystem.CompleteLeaves | agent-runner/src/server.rs:261-264 | no promoted task is dropped for want of a payload: its own submitted run is taken out and spawned |
| RunSystem.ReachableInvariant | agent-runner/src/server.rs:157-269 | the invariant holds after every interleaving of submissions and completions |
| RunSystem.LastNSnoc | agent-runner/src/scheduler.rs:216-221 | pushing and trimming keeps the last n of all terminal events |
| RunScheduling.RunScheduler.constructor | agent-runner/src/server.rs:139-155 | initial state with the configured limits and the invariant |
| RunScheduling.RunScheduler.SubmitRun | agent-runner/src/server.rs:157-199 | the block is exactly one submission step; it answers as admit does and hands the run to the caller if and only if it starts now |
| RunScheduling.RunScheduler.ClaimPayloads | agent-runner/src/server.rs:261-264 | takes the payloads of the promoted tasks in order, skipping those without one |
| RunScheduling.RunScheduler.CompleteRun | agent-runner/src/server.rs:255-269 | the block is exactly one completion step and returns the runs to spawn |
| Safety.EveryRunIsSafe | agent-runner/src/server.rs:139-269 | in every reachable state: workers in flight are the running tasks, one per conversation and within the configured limit; payload keys are the queued ids; admitted equals finished, running, queued in order, per conversation; ready queue exact and without duplicates; configured depth kept; no slot idle while a conversation is ready; history is the last sixteen |
| Safety.EveryAdmission | agent-runner/src/scheduler.rs:77-105 | in every reachable state a task starts at once if and only if fewer workers than configured are in flight and none serves its conversation, and is refused if and only if it cannot start and as many tasks wait as configured |
| Safety.EveryCompletionIsItsOwn | agent-runner/src/server.rs:255-269 | every completion finishes the task recorded as running, so finish is only called for a running conversation; at most one task is promoted and its run is found and spawned |
| Safety.RejectedNeverRuns | agent-runner/src/scheduler.rs:83-85 | a run answered with QueueFull is never in flight, never waits and is never admitted, after any later events |
| Safety.PayloadKeysAreQueuedIds | agent-runner/src/server.rs:101-104 | an id has a payload if and only if a queued task has that id |
| Latency.PlaceInLine | agent-runner/src/scheduler.rs:107-127 | each completion of its own conversation, and no other event, moves a task up one place; after the first one the line has a running task at its front |
| Latency.QueuedBehindBusy | agent-runner/src/scheduler.rs:171-183 | a task queued for a conversation that runs or has tasks waiting, with k tasks ahead, runs after exactly k completions of that conversation, whatever happens elsewhere, and waits with its payload until then |
| Latency.ReadyOrder | agent-runner/src/scheduler.rs:129-142 | each completion that frees its slot, and no other event, moves a ready conversation up one place |
| Latency.ReadyStartsExactly | agent-runner/src/scheduler.rs:129-142 | the task at ready place p has started if and only if more than p completions have freed their slot |
| Latency.ReadyIsFifo | agent-runner/src/scheduler.rs:129-142 | ready conversations start in the order they became ready |
| Latency.StartedStays | agent-runner/src/scheduler.rs:107-145 | a task that has started never waits again |
| Draining.LoadDrains | agent-runner/src/scheduler.rs:107-145 | without admissions, running plus waiting drops by exactly one per completion |
| Draining.LoadHasWorker | agent-runner/src/scheduler.rs:66-75 | while anything runs or waits some worker is in flight |
| Draining.IdleAfterExactly | agent-runner/src/scheduler.rs:107-145 | without admissions all tables are empty if and only if as many completions happened as tasks ran or waited |
| Draining.IdleConversationWait | agent-runner/src/scheduler.rs:171-187 | a task queued for an idle conversation starts, without further admissions, within one completion more than the tasks waiting before it; `tasks_ahead` is never less than that |
| Promise.IdleWaitExactly | agent-runner/src/scheduler.rs:171-187 | k completions suffice for certain if and only if k exceeds the number of tasks that waited before it |
| Starvation.ReadyTaskCanStarve | agent-runner/src/scheduler.rs:122-142 | while a running conversation has a task queued or may queue one, a ready task can keep its place through any number of completions |
| Starvation.WaitUnboundedExactly | agent-runner/src/scheduler.rs:122-142 | the wait of a ready task is unbounded if and only if it is not the head of the ready queue, or the queue has room, or some running conversation has a task queued |
| Starvation.IdleWaitUnboundedExactly | agent-runner/src/scheduler.rs:171-187 | the same seen before the submission of a task for an idle conversation: bounded if and only if it takes the last place of the queue, nothing is ready, and no running conversation has a task queued |
| Starvation.HeadStartsNext | agent-runner/src/scheduler.rs:122-142 | in that bounded case the head task starts with the very next completion, whatever is submitted |
| Starvation.ToldOneAheadYetStarves | agent-runner/src/scheduler.rs:171-187 | a concrete start with one slot in which a task told one is ahead waits through any number of completions |
| Promise.ToldBoundsWaitExactly | agent-runner/src/scheduler.rs:171-183 | without further admissions the number told bounds the completions before the start, of whatever conversation, if and only if the conversation was idle or no other one is running |
| Promise.WaitingConversationIsToldTooLittle | agent-runner/src/scheduler.rs:171-183 | it never does for a task that joins a conversation which itself waits for a slot |
| SessionSpec.CallBehaves | agent-runner/src/exec.rs:162-222 | every call succeeds if and only if its alias and its key are free for it; a refused call leaves both tables as they were; no call loses a session, changes an identity or moves an alias |
| SessionSpec.CallsKeepStore | agent-runner/src/exec.rs:162-222 | over any sequence of calls every alias names a stored session, every row's identity encodes to its key, and no alias moves |
| SessionSpec.GetOrCreateWrites | agent-runner/src/session_store.rs:250-319 | closed form: the one row written and the record returned, or nothing written and an error, by whether the key is free |
| SessionSpec.ResetWrites | agent-runner/src/session_store.rs:321-362 | closed form of a reset: its own row rotated, or nothing written and an error |
| SessionSpec.LoadWrites | agent-runner/src/exec.rs:162-191 | closed form of a runtime load: one row and at most one alias written and the record, or nothing written |
| SessionSpec.ResetRuntimeWrites | agent-runner/src/exec.rs:193-222 | closed form of a runtime reset; no rotation when the alias or the key is taken |
| SessionSpec.LoadThenGet | agent-runner/src/session_store.rs:206-219 | after a load, looking the external id up finds the record returned, which was new if and only if the conversation had no session |
| SessionAnswers.LoadExactly | agent-runner/src/exec.rs:162-191 | every load: the rows, aliases and record field by field, or nothing written and a refusal naming the holder of the external id, else of the key |
| SessionAnswers.ResetExactly | agent-runner/src/exec.rs:193-222 | every reset likewise; the conversation itself is named when it has no session |
| SessionAnswers.BoundExactly | agent-runner/src/session_store.rs:112-145 | every creation of a bound session likewise |
| SessionAnswers.BindExactly | agent-runner/src/session_store.rs:147-181 | every binding writes that alias and nothing else, or nothing, with the refusal named |
| SessionAnswers.ResetBoundExactly | agent-runner/src/session_store.rs:221-247 | every bound reset rotates the row and moves the alias, taken or not, or writes nothing, with the refusal named |
| SessionAnswers.GetSessionExactly | agent-runner/src/session_store.rs:206-219 | a lookup finds a session if and only if its argument is a bound external id or a session key, and finds the stored row |
| SessionAnswers.LoadThenGetByKey | agent-runner/src/session_store.rs:206-219 | after a load the session is found by its key if and only if no external id of that spelling names another |
| SessionSpec.ResetRotatesOnlyItsRow | agent-runner/src/session_store.rs:321-362 | a reset changes the id and dates of its own row, keeps the identity, and touches no other row |
| SessionSpec.ResetBoundMovesAliasExactly | agent-runner/src/session_store.rs:221-247 | a bound reset keeps every alias in place if and only if its alias was free |
| SessionSpec.BindAfterWrite | agent-runner/src/session_store.rs:147-181 | binding after the session was written never fails, so a call never stops half way |
| SessionStore.SessionTables.constructor | agent-runner/src/session_store.rs:534-557 | empty tables, invariant established |
| SessionStore.SessionTables.GetOrCreate | agent-runner/src/session_store.rs:250-319 | fetch, check, touch, or insert with its conflict path: a call that loses the insert to another client ends with the tables and the result of one that came after it |
| SessionStore.SessionTables.ResetKey | agent-runner/src/session_store.rs:321-362 | computes the specified tables and result |
| SessionStore.SessionTables.ValidateBinding | agent-runner/src/session_store.rs:397-429 | an error if and only if the alias names another session, with that session's identity in it |
| SessionStore.SessionTables.BindExternalId | agent-runner/src/session_store.rs:147-181 | validates, checks the session, writes the alias last |
| SessionStore.SessionTables.GetOrCreateBoundSession | agent-runner/src/session_store.rs:112-145 | computes the specified tables and result |
| SessionStore.SessionTables.ResetBoundSession | agent-runner/src/session_store.rs:221-247 | computes the specified tables and result, without validating the alias |
| SessionStore.SessionTables.LoadRuntimeSession | agent-runner/src/exec.rs:162-191 | computes the specified tables and result, keeps the invariant and every alias, and changes nothing when refused |
| SessionStore.SessionTables.ResetRuntimeSession | agent-runner/src/exec.rs:193-222 | the same for the reset of the retry |
| Retry.RetryReadsRawStreams | agent-runner/src/exec.rs:224-236 | trimming changes nothing: a retry is asked for if and only if a resumed, timely answer contains the missing-session text in either raw stream |
| Retry.CommandReadsBack | agent-runner/src/exec.rs:238-264 | read as options found by name, the command line gives back program, switches, directories, system prompt, claude id, whether it is opened or resumed, and prompt, whatever the strings |
| ExecMachine.NewCommandsDiffer | agent-runner/src/exec.rs:238-264 | over any interleaving: the command line of a launch reads as opening its session if and only if the launch is new, and no other command line, whatever its prompts, reads as opening the same |
| Executor.DockerRunner.ExecuteRequest | agent-runner/src/exec.rs:57-139 | one whole call computes the specified tables, launched commands and result and keeps the store's invariant |
| Executor.RetryIsNeverRefused | agent-runner/src/exec.rs:78-81 | once loading succeeded, the reset of the retry succeeds under the same identity |
| Executor.RefusedExactly | agent-runner/src/exec.rs:57-73 | a refused session or a missing container ends the call with no command and that error |
| Executor.ExecuteExactly | agent-runner/src/exec.rs:57-139 | otherwise, without a retry: one launch, whose command reads as resuming the stored id or opening a new one, and what becomes of it is the answer, each failing step by its own error |
| Executor.RetryExactly | agent-runner/src/exec.rs:78-89 | a retry, asked for if and only if a resumed session was answered in time with the missing-session text: the id is rotated whatever becomes of the second launch, whose command reads as opening the new id and whose outcome is the answer |
| ExecMachine.StatementExec | agent-runner/src/session_store.rs:250-362 | one SQL statement of one call keeps that call's invariant, the tables' and the record of issued ids |
| ExecMachine.RunKeepsInvariant | agent-runner/src/exec.rs:57-89 | the invariant holds after any interleaving of any number of calls, statement by statement |
| ExecMachine.LaunchesUseIssuedIds | agent-runner/src/exec.rs:57-89 | every launch uses an id stored earlier for the request's own conversation, a `--session-id` launch one that this call stored; at most one retry, and only of a resume, under a different id |
| ExecMachine.NoSessionIdLaunchedTwice | agent-runner/src/exec.rs:57-89 | no two launches of any calls use `--session-id` with the same id |
| ExecMachine.SessionsAreNotShared | agent-runner/src/session_store.rs:471-490 | two launches of the same claude id were asked for by the same conversation, even if keys collide |
| ExecMachine.OneCreatorPerSession | agent-runner/src/session_store.rs:250-319 | of all calls that loaded a session exactly one saw it as new; without rotation all got the same id |
| ExecMachine.ConflictFindsRow | agent-runner/src/session_store.rs:294-306 | the expectation that the session exists after an insert conflict never fails |
| AliasRace.EveryRecordWasStored | agent-runner/src/session_store.rs:250-362 | with resets interleaved, the id in any record a call holds was the stored one at a fetch, insert or rotation of that call |
| AliasRace.AgreedAliasesStay | agent-runner/src/session_store.rs:147-181 | when callers agree on what each external id names, no interleaving moves an alias |
| AliasRace.AliasMovesExactly | agent-runner/src/session_store.rs:147-181 | for any calls, some interleaving of just them, from empty tables, takes an alias from its session if and only if two of them give one external id to different sessions |
| Alone.AloneIsSequential | agent-runner/src/exec.rs:162-222 | run without interruption, the statements of a call give the tables and the outcome of the sequential procedures |
| Alone.WholeCallIsExecute | agent-runner/src/exec.rs:57-139 | a whole call of the interleaved machine, uninterrupted, gives the tables, commands and end of the sequential one, with or without retry |
| Exclusive.LaunchesUseStoredId | agent-runner/src/exec.rs:57-89 | if calls of one conversation never overlap, every launch uses the id stored for the conversation at that moment, resets of other conversations notwithstanding |
| Joint.ScheduledLaunchesUseStoredId | agent-runner/src/server.rs:211-270 | in every run of scheduler and calls together, where workers in flight make the calls, calls of one conversation never overlap and every launch uses the id stored at that moment |
| Overlap.GoesStaleExactly | agent-runner/src/exec.rs:75-89 | among any calls, a given one may come to launch with an id that another has replaced if and only if another one is for the same conversation |
| KeyEncoding.KeysCollideExactly | agent-runner/src/server.rs:832-837 | two pairs get the same conversation key if and only if a separator can be read in two places, in one of three named ways |
| KeyEncoding.UniqueKeyExactly | agent-runner/src/server.rs:832-837 | a pair shares its conversation key with no other pair if and only if neither component contains a separator, the account does not end in a colon and the conversation id does not begin with one |
| KeyEncoding.PlainExactly | agent-runner/src/server.rs:832-837 | no pair with a shorter account shares the key if and only if the account contains no separator and does not end in a colon |
| KeyEncoding.PlainIsInjective | agent-runner/src/server.rs:832-837 | plain accounts: equal keys, equal pairs |
| KeyEncoding.SessionKeysInjective | agent-runner/src/session_store.rs:456-462 | plain platforms and accounts: equal session keys, equal identities |
| KeyEncoding.SessionKeysCollideExactly | agent-runner/src/session_store.rs:456-462 | two identities get the same session key if and only if a separator can be read in two places, of the platform or, the platforms being equal, of the account |
| KeyEncoding.UniqueSessionKeyExactly | agent-runner/src/session_store.rs:456-462 | an identity shares its session key with no other if and only if no component contains a separator, the platform does not end in a colon, the account neither begins nor ends in one, and the conversation id does not begin with one |
| KeyEncoding.TakenKeyIsRefused | agent-runner/src/session_store.rs:471-490 | a conversation whose key belongs to another is refused by load and reset, and the tables stay as they were |
| CqCodec.TakeDigits | agent-runner/src/platforms/qq.rs:633-640 | reads the maximal run of digits |
| CqCodec.EncodeText | agent-runner/src/platforms/qq.rs:622-654 | the loop computes the specified encoding |
| CqCodec.CompileParts | agent-runner/src/platforms/qq.rs:390-419 | the codes of the parts in order, or the error of the first invalid id |
| CqCodec.CompileMessage | agent-runner/src/platforms/qq.rs:373-422 | reply, mention and parts compiled as specified |
| CqCodec.StripReplies | agent-runner/src/platforms/qq.rs:656-671 | the loop removes the specified reply tokens |
| CqCodec.ParseRawMessage | agent-runner/src/platforms/qq.rs:533-575 | the loop computes the specified parts |
| CqRoundTrip.EscapeIsOnePass | agent-runner/src/platforms/qq.rs:615-620 | three successive replacements equal one pass over the characters |
| CqRoundTrip.UnescapeUndoesEscape | agent-runner/src/platforms/qq.rs:615-620 | escaping has a left inverse on every text |
| CqRoundTrip.EscapedHasNoBracket | agent-runner/src/platforms/qq.rs:615-620 | escaped text contains no bracket, so no code is read in it |
| CqRaw.EveryRawSplits | agent-runner/src/platforms/qq.rs:533-575 | every raw message is an alternation of texts and closed codes of a kind, up to what follows its last closed one |
| CqRaw.RawShownExactly | agent-runner/src/platforms/qq.rs:533-575 | for every raw message: the parts are its texts and at-codes in order, then the tail without its reply tokens; the text shown is just that if and only if no text stands between the last closed at-code and an unclosed one, and otherwise that text comes twice |
| CqRaw.StripKeepsExactly | agent-runner/src/platforms/qq.rs:656-671 | for every text: stripping takes out the closed reply tokens and nothing else if and only if no text stands between the last of them and an unclosed one, and otherwise that text comes twice |
| CqRaw.RawMentionsExactly | agent-runner/src/platforms/qq.rs:533-575 | every raw message mentions, in order, whom its closed at-codes name: the account itself if and only if the number is the bot's own, else the user of that number |
| CqRaw.ExtractExactly | agent-runner/src/platforms/qq.rs:673-678 | for every raw message: the reply target is the payload of its first closed reply token, none without one |
| CqRoundTrip.ActorGivesDigitsBack | agent-runner/src/platforms/qq.rs:604-613 | normalising a parsed actor gives back its digits, the bot's own included |
| CqRoundTrip.EncodeThenParse | agent-runner/src/platforms/qq.rs:622-654 | for every text: parsing its encoding shows the escaped text, which decodes to the text, and mentions exactly the digit runs of length five or more after an at-sign, in order |
| CqMessages.CompileThenParse | agent-runner/src/platforms/qq.rs:373-422 | for every message of text and valid mentions without a reply: compiling succeeds, and parsing shows the same text and the same mention targets in order |
| CqMessages.ReplyIsRecovered | agent-runner/src/platforms/qq.rs:673-678 | for every message that compiles with a reply target, the normalised target is extracted from the result |
| CqReply.ReplyTextCleanExactly | agent-runner/src/platforms/qq.rs:656-671 | for every message that compiles as a reply, media and quotes included: its text parses as without the reply if and only if no part mentions anyone, in front, in a text, or inside a media reference; otherwise the raw token is left in front |
| CqMessages.TargetExactly | agent-runner/src/platforms/qq.rs:604-613 | a target is its number, bare or behind one of the two prefixes, and anything else is named in the error |
| CqMessages.CompileErrorExactly | agent-runner/src/platforms/qq.rs:373-422 | compiling fails if and only if some target is not valid, and the error names the first such target in the order reply, leading mention, parts |
| CqSegments.CompiledReadsExactly | agent-runner/src/platforms/qq.rs:373-422 | every compiled message reads back as the segments of its reply, leading mention and parts, each of its kind, in order, if and only if no media reference holds a closing bracket; its texts show escaped |
| Text.WhitespaceExactly | agent-runner/src/normalizer.rs:88-88 | white space is exactly the Unicode White_Space characters |
| Text.TrimExactly | agent-runner/src/normalizer.rs:237-244 | trimming leaves nothing if and only if the text is blank, else what stands between the white space at its ends |
| Protocol.PlainTextJoins | agent-runner/src/protocol/message.rs:50-60 | the plain-text projection of a concatenation is the concatenation of the projections |
| Protocol.PlainTextShows | agent-runner/src/protocol/message.rs:50-60 | a text shows itself, a mention its display |
| Protocol.PlainTextSkips | agent-runner/src/protocol/message.rs:50-60 | media and quotes show nothing, wherever they stand |
| Normalizer.AppendActionItems | agent-runner/src/normalizer.rs:147-179 | the loop computes the specified messages and actions |
| Normalizer.ReplaceMarkdownLinks | agent-runner/src/normalizer.rs:284-312 | the loop computes the specified replacement |
| Normalizer.NormalizeAgentOutput | agent-runner/src/normalizer.rs:75-145 | the loop computes the specified plan for any decoder |
| NormalizerRoundTrip.ScanDoc | agent-runner/src/normalizer.rs:85-114 | closed blocks are taken out one after the other, their text and content collected, whatever follows them |
| NormalizerRoundTrip.NormalizeTakesApart | agent-runner/src/normalizer.rs:75-145 | for every output, taken as bodies and closed blocks: the collected text is the bodies and the tail in order, and messages, actions, mentions and the last effective reply target are those of the blocks |
| NormalizerRoundTrip.NormalizedPlan | agent-runner/src/normalizer.rs:116-144 | the body message comes first with the last reply directive, then media messages in block order; actions in block order |
| ItemRules.PlanExactly | agent-runner/src/normalizer.rs:75-145 | for every output: the actions and media messages are exactly those the items ask for by their own fields, in order; the body message holds the mentions and the degraded text and replies as the last envelope that says anything directs |
| ItemRules.ReactionsExactly | agent-runner/src/normalizer.rs:153-172 | an item yields an addition of an emoji to a message if and only if it asks for that addition, both non-empty; likewise a removal; otherwise no action |
| ItemRules.MediaExactly | agent-runner/src/normalizer.rs:181-265 | an item yields a media message if and only if it names a medium and a known source; then of that medium, kind, type and source, with trimmed caption and reply directive |
| ItemRules.DirectiveExactly | agent-runner/src/normalizer.rs:237-254 | what each `reply_to` directs, and which say nothing |
| NormalizerRoundTrip.EveryOutputSplits | agent-runner/src/normalizer.rs:85-114 | every output whatever is an alternation of bodies and closed blocks, up to what follows its last closed block |
| NormalizerRoundTrip.TextKeptExactly | agent-runner/src/normalizer.rs:85-114 | the collected text is bodies and tail if and only if no text stands between the last closed block and an unclosed one; such text comes twice |
| NormalizerRoundTrip.FoldKeepsExactly | agent-runner/src/normalizer.rs:76-76 | line-end folding changes an output if and only if it holds a two-character line end |
| Markdown.LineEndsExactly | agent-runner/src/normalizer.rs:76-76 | folding puts one newline for each two-character line end |
| Markdown.DegradeMarkdownExactly | agent-runner/src/normalizer.rs:267-273 | degrading a text degrades each of its lines and keeps the newlines between them |
| Markdown.DegradeLineExactly | agent-runner/src/normalizer.rs:275-282 | a line loses its heading mark, its emphasis marks and then its code marks, nothing else, before its links are replaced |
| Markdown.EveryLineIsMarkedUp | agent-runner/src/normalizer.rs:275-282 | every line is made of a heading mark, pieces between emphasis marks, and pieces between code marks |
| NormalizerRoundTrip.AppendItemsIs | agent-runner/src/normalizer.rs:147-179 | the items' media messages and reactions, each in item order |
| NormalizerRoundTrip.MediaTellsItem | agent-runner/src/normalizer.rs:181-235 | two items yield the same media part if and only if action type, source type and source value agree |
| Links.LinksAreShownExactly | agent-runner/src/normalizer.rs:284-312 | every link of a line becomes caption, colon, address; all other text stays as written if and only if each stray bracket is followed, up to the next link, by nothing but brackets |
| Links.EveryLineSplits | agent-runner/src/normalizer.rs:284-312 | every line whatever is made of such links, stray brackets included, and a rest without a link |
| Links.DegradedHasNoBacktick | agent-runner/src/normalizer.rs:267-282 | degraded text holds no code formatting, whatever came in |

## Left out

- HTTP, Docker, tokio tasks and logging: a run is a step that ends at any time with any terminal state.
- A panic inside `run_task`, which would skip `finish` and keep the slot.
- Direct `/v1/runs` requests (`agent-runner/src/server.rs:919-941`): they bypass the scheduler, so
  exclusivity per conversation is stated for submitted tasks only.
- The recent-terminal summary text: passed through unread.
- Postgres transport errors and connections: a statement always answers.
- `reset_bound_session` is not among the calls whose sequences keep every alias; the runtime does not use
  it, and `ResetBoundMovesAliasExactly` says when it would.
- What a history read grant contains, and the wording of error answers: only which step failed is modelled.
- Durations in run answers.
- Array-segment messages in `qq.rs`, emoji mapping, and asset references of media codes beyond their text:
  the parser of incoming messages knows text, mentions and the reply target; media and quotes are read back
  by the reader of `CqSegments.dfy` only.
- JSON decoding of action blocks and native payloads.
- WeChatPadPro fields, prompt rendering, history queries, configuration, the API proxy, scripts:
  a reading settles them.

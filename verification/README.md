# Proofs about the async runtime, the code editor's undo log, channels, line drawing, scenes and the playtest protocol

This project models machines of the repository whose guarantees come from several functions
working together, and proves those guarantees.

**Executor** (`ExecutorSpec`, `ExecutorMachine`, `ExecutorSafety`, `ExecutorTheorems`,
`ExecutorSleep`, `ExecutorOversleep`, `ExecutorDrain`, `ExecutorOutcomes`, `ExecutorSections`, `Executor`). The worker-pool executor: a bounded ring of
waiting tasks, task states 0 to 3, the RUNNING, DRAINING, STOPPING, STOPPED lifecycle, work
assistance and cancellation. Each lock-held section is one atomic step; each thread has a stack of claimed
tasks, because assists nest. The class `TaskExecutor` does the sections in place over the ring
and is proved to do what the functions of `ExecutorSpec` say; the machine interleaves those same
functions in every order, and `ExecutorSections` states its sections case by case, as the class's contracts do.

**Coroutine scheduler** (`CoroSpec`, `CoroCompletion`, `CoroScheduler`). Intrusive lists of tasks, ready tasks and
token bindings, refining a task map, a FIFO and a token map.

**Reactor** (`WakeReactor`). The wake list paired with the self-pipe.

**Channel** (`Channel`). The ring buffer with two condition variables.

**Undo log** (`UndoSpec`, `UndoTheorems`, `UndoRuns`, `UndoRedo`, `UndoArena`, `UndoStray`,
`UndoFull`, `UndoDamage`, `EditorBytes`, `CodeEditor`). Inverse diffs in a shared byte arena, with coalescing, a redo tail and truncation,
against the plain list of earlier texts.

**Line drawing** (`LineSpec`, `LineClip`, `Line`). Integer clipping composed with Bresenham.

**Terrain, scene and play mode** (`TerrainSpec`, `TerrainStore`, `TerrainSurface`, `TerrainEffects`,
`SceneSpec`, `SceneTheorems`, `SceneEffects`, `Scene`, `PlaySpec`, `PlayMode`). Swap-remove stores, parent links, brushes and sampling over the
reals, deep-copy snapshots and the fixed-step clock.

**Playtest protocol** (`PlayWire`, `PlayWireTheorems`, `PlayWireFormat`, `PlayProtocol`, `PlayDecoder`). Encoders
and decoder on bytes, and the receive loop over arbitrary chunks.

`Lists`, `RingIndex` and `Bytes` are shared by several parts.

In each part a function on values says what an operation does; a class or method with the
source's loops and fields is proved to do exactly that, and lemmas prove what the source promises
about the functions, over every input or every run.

Where the code differs from its comments, or from what a caller would expect, the code is modelled:

- The channel's comments (`bin/runtime/meth_thread.c:268-273`) call capacity 0 unbounded; the first send sets the capacity to 16 for good
  (`ChannelWaits.ZeroCapacityBlocksIff`).
- The comment on the undo log (`engine/engine_game_tree.mettle:33-34`) says undo and redo can both
  replay exactly; truncation protects only the bytes of deletions. Redo is right exactly while no
  surviving record's bytes are changed (`UndoRedo.RedoRightIff`, `UndoRedo.PutRedoIff`,
  `UndoRedo.DeleteRedoIff`); `UndoRuns.UndisciplinedRedo` is a session in which they are.
- Coalescing stores a byte right behind the surviving insertion after checking only the recomputed
  mark, so the byte can fall outside the arena (`UndoArena.MergeStraysIff`, `UndoStray.SessionStrays`).
- A deletion that finds the record table full is carried out without a record. Undo is right all
  along a session exactly when it meets no such deletion (`UndoFull.UndoRightIff`);
  `UndoFull.SessionFillsTable` meets one.
- A wait that propagates a cancel broadcasts before it sleeps, and a refused start stores its state
  without a broadcast; a waiter sleeps on a task that is already over for exactly these two reasons
  (`ExecutorOversleep.OversleepsIff`). It sleeps until the next broadcast of any section.
- `wait` stops assisting once the state is DRAINING, so a drain need not end: workers can all wait
  for tasks that none of them takes (`ExecutorDrain.DrainStalls`), and then only a cancel, another
  shutdown call or a deadline gets them out (`ExecutorDrain.StalledForever`). A drain whose workers
  all sleep is over exactly when all of them are idle (`ExecutorDrain.DrainFinishedIff`).
- The comment on line clipping (`engine/engine_viewport.mettle:762-764`) says the segment is clipped. The
  fraction dropped where it meets a corner's row can make it miss the rectangle, so a segment through
  a pixel of the viewport can go undrawn; that is exactly `LineClip.LostAtCorner`
  (`LineClip.ThroughPixelRejectedIff`, `LineClip.PixelLostAtCorner`).
- An undo that puts nothing back, as the text would get too long, still moves the caret to where the
  bytes would end (`EditorBytes.UndoCaretInsideIff`).
- The scene's cycle check gives up after 256 links (`SceneTheorems.RunSoundIff`).
- A stop reason is not cut at a newline, so one STOP can be received as several packets
  (`PlayWireTheorems.OnePacketIff`).
- An encoder does not look at the -1 of a field that did not fit and goes on writing one byte before
  its buffer; that happens exactly when a positive capacity is not above the length of the line
  without its newline (`PlayProtocol.EncodeWelcome` and the other encoders with fields).

`dafny verify dfyconfig.toml` checks the whole project.

## Model

| member | source | states |
|---|---|---|
| ExecutorTheorems.OutstandingIsExact | bin/runtime/async_runtime.c:1522-1553 | in every reachable state the outstanding counter is the number of queued tasks plus claimed tasks that are not terminal |
| ExecutorTheorems.CountedDownOnce | bin/runtime/async_runtime.c:1522-1532 | every admitted task is counted down at most once, exactly when it becomes terminal; the counter is admissions minus count-downs |
| ExecutorTheorems.GuardNeverSuppresses | bin/runtime/async_runtime.c:1526-1530 | while an admitted task is not terminal the counter is positive, so the `> 0` guard never skips a count-down; a task that becomes terminal in a step is counted down in it |
| ExecutorTheorems.ClaimsFollowAdmissions | bin/runtime/async_runtime.c:1459-1520 | claims so far followed by the queue are the admissions in order, minus the tasks cancelled or aborted while queued, which are cancelled and were never claimed |
| ExecutorTheorems.BodiesRunAtMostOnce | bin/runtime/async_runtime.c:1689-1716 | no task body starts twice, and none starts that was cancelled or aborted while queued |
| ExecutorTheorems.BodiesBeginClean | bin/runtime/async_runtime.c:1697-1716 | a body starts only on a waiting task with no cancel request, in a runtime that is not stopping, and moves it to running |
| ExecutorTheorems.TerminalIsForever | bin/runtime/async_runtime.c:1522-1553 | over any run a terminal task keeps its terminal state and its body does not start again |
| ExecutorTheorems.StepKeepsTerminal | bin/runtime/async_runtime.c:1522-1545 | no single lock-held section moves a task out of a terminal state |
| ExecutorTheorems.StoppedMeansQuiet | bin/runtime/async_runtime.c:1866-1969 | whenever the runtime is STOPPED every admitted task is terminal, the queue is empty, the counter 0 and no thread holds a task |
| ExecutorTheorems.FinalResetDiscardsNothing | bin/runtime/async_runtime.c:1953-1968 | the final reset of queue, counters and worker count finds them all empty already |
| ExecutorTheorems.AbortsIff | bin/runtime/async_runtime.c:1874-1926 | a section aborts queued tasks if and only if tasks are queued and it is an abort call on a runtime that is not stopping yet, or a deadline that passes before its drain is over |
| ExecutorTheorems.DrainAbortsNothing | bin/runtime/async_runtime.c:1889-1926 | a run without such a call or deadline aborts nothing, and once it is past DRAINING every admitted task is terminal |
| ExecutorTheorems.StepGrows | bin/runtime/async_runtime.c:1733-1780 | admissions only grow and only while RUNNING; only the first section of execute_task starts a body |
| ExecutorTheorems.GuardsExcludeNothing | bin/runtime/async_runtime.c:1556-1780 | the domain conditions in the machine's guards hold in every reachable state, so they hide no interleaving |
| ExecutorSafety.StepKeeps | bin/runtime/async_runtime.c:1459-2143 | the executor invariant (stacks, claims, counter, order, lifecycle) is kept by every lock-held section in any interleaving |
| ExecutorSafety.RunKeeps | bin/runtime/async_runtime.c:1459-2143 | and so by every run |
| ExecutorSafety.CounterCovers | bin/runtime/async_runtime.c:1526-1530 | an admitted task that is not terminal keeps the counter positive |
| ExecutorSafety.NoWorkersNoClaims | bin/runtime/async_runtime.c:1564-1590 | with no live worker left, no task is claimed and every stack is empty |
| ExecutorSpec.AbortQueuedFacts | bin/runtime/async_runtime.c:1547-1554 | aborting empties the queue, cancels exactly the queued tasks and gives back one outstanding unit each |
| Lists.RemoveFirstFacts | bin/runtime/async_runtime.c:1486-1520 | removal from the middle of the ring takes out that task alone and keeps the queue free of duplicates |
| ExecutorSleep.SleepingWorkerSeesEmptyQueue | bin/runtime/async_runtime.c:1567-1590 | a worker asleep in its main loop implies an empty queue and a runtime that is not stopping |
| ExecutorSleep.SleepingProducerSeesFullQueue | bin/runtime/async_runtime.c:1741-1775 | a producer asleep in enqueue implies a full queue and a RUNNING runtime |
| ExecutorOversleep.OversleepsIff | bin/runtime/async_runtime.c:1985-2143 | a thread asleep in wait sleeps on a task that is over and unclaimed if and only if it cancelled that task itself in its last pass or the start of the task was refused; never both |
| ExecutorOversleep.FallsAsleepOnOverIff | bin/runtime/async_runtime.c:2102-2143 | one pass of wait goes to sleep on a task that is over if and only if it propagates a cancel, the task was waiting in the queue, and the runtime is not RUNNING with another task queued: the cancel broadcasts before the waiter sleeps |
| ExecutorOversleep.StrandedByRefusal | bin/runtime/async_runtime.c:1985-2004 | a task that becomes over while its waiter stays asleep does so only by a refused start, which stores the state without a broadcast |
| ExecutorOversleep.RefusedIsCancelled | bin/runtime/async_runtime.c:1985-2004 | in every reachable state a task whose start ended without admission is cancelled and on no stack |
| ExecutorOversleep.EveryoneOversleeps | bin/runtime/async_runtime.c:2115-2140 | a reachable state in which every thread is asleep although the awaited task is over |
| ExecutorOversleep.RefusedStartOversleeps | bin/runtime/async_runtime.c:1985-2143 | a reachable state in which a refused start leaves its waiter asleep, with nothing cancelled |
| ExecutorSleep.StepSleepers | bin/runtime/async_runtime.c:1567-1775 | every section that fills or empties the queue, or changes the mode, wakes the sleepers its change concerns |
| ExecutorDrain.DrainFinishedIff | bin/runtime/async_runtime.c:1898-1926 | in a reachable DRAINING state whose live workers are all asleep, nothing is queued or claimed if and only if every live worker is idle |
| ExecutorDrain.QueuedMeansBlocked | bin/runtime/async_runtime.c:2115-2140 | with a task still queued, a worker asleep while DRAINING is blocked in wait under a task of its own |
| ExecutorDrain.FinishedDrainGoesOn | bin/runtime/async_runtime.c:1898-1926 | once a drain has nothing queued or claimed, its caller is not asleep and its next pass ends it |
| ExecutorDrain.StepStalled | bin/runtime/async_runtime.c:1898-1926 | a drain in which tasks are queued and every live worker waits for an unfinished task that it does not cancel stays so in every section but a cancel, a shutdown call or a deadline |
| ExecutorDrain.StalledForever | bin/runtime/async_runtime.c:1898-1926 | so over every run without these three such a drain takes, begins and finishes no task |
| ExecutorDrain.DrainStalls | bin/runtime/async_runtime.c:1889-2140 | a reachable stalled drain: a body waits for its queued child, and every thread sleeps, the shutdown caller too |
| ExecutorOutcomes.EndsFinishedIff | bin/runtime/async_runtime.c:1718-1728 | a task that its thread ends becomes finished (state 2, nothing requested) if and only if no cancel was requested of it and the runtime is RUNNING or DRAINING, else cancelled (state 3); the request flag stays as it was |
| ExecutorOutcomes.FinishedIff | bin/runtime/async_runtime.c:2010-2026 | after any run a task is finished if and only if at some point of the run its thread ended it while running, with no cancel requested and the runtime RUNNING or DRAINING; a finished task has run its body |
| ExecutorOutcomes.QuietRunsFinish | bin/runtime/async_runtime.c:1689-1728 | over every run without a cancel and without a shutdown call, every task that is over has run its body and is finished, unless its start was refused |
| ExecutorSections.EnqueueCases | bin/runtime/async_runtime.c:1733-1780 | exactly when a pass of enqueue refuses, assists, sleeps, admits or tries again, and the shared fields, the call and the sleepers it leaves |
| ExecutorSections.CancelCases | bin/runtime/async_runtime.c:1534-1545 | a cancel sets the request, takes a waiting queued task out as cancelled, wakes everyone and touches no other task |
| ExecutorSections.WaitCases | bin/runtime/async_runtime.c:2093-2143 | exactly when a pass of wait ends, passes a cancel on, assists or sleeps, and what it leaves |
| ExecutorSections.WorkerCases | bin/runtime/async_runtime.c:1567-1590 | exactly when a worker takes the oldest task, exits or sleeps |
| ExecutorSections.BeginCases | bin/runtime/async_runtime.c:1697-1712 | a body begins if and only if its task is not over, no cancel was requested and the runtime is RUNNING or DRAINING |
| ExecutorSections.ShutdownCallCases | bin/runtime/async_runtime.c:1874-1896 | a runtime never started becomes STOPPED, a RUNNING one drains unless told to abort, any other stops with everything queued cancelled |
| ExecutorSections.ShutdownLoopCases | bin/runtime/async_runtime.c:1898-1926 | exactly when a pass of the shutdown loop stops a drain, joins, gives up or sleeps |
| Executor.TaskExecutor.ResetHeader | bin/runtime/async_runtime.c:1985-1994 | start resets the header of a new task |
| Executor.TaskExecutor.RefuseStart | bin/runtime/async_runtime.c:1996-2004 | a start that fails stores the cancelled state and nothing else |
| Executor.TaskExecutor.QueuePush | bin/runtime/async_runtime.c:1459-1469 | ring push refines appending, for every head position and wrap |
| Executor.TaskExecutor.QueuePop | bin/runtime/async_runtime.c:1471-1484 | ring pop refines taking the head |
| Executor.TaskExecutor.QueueRemove | bin/runtime/async_runtime.c:1486-1520 | ring removal refines deleting the first occurrence, shifting the later slots |
| Executor.TaskExecutor.SetStateLocked | bin/runtime/async_runtime.c:1522-1532 | stores the state and counts down once on the step into a terminal state |
| Executor.TaskExecutor.RequestCancelLocked | bin/runtime/async_runtime.c:1534-1536 | sets the cancel flag and nothing else |
| Executor.TaskExecutor.CancelTask | bin/runtime/async_runtime.c:1534-1545 | a queued waiting task is removed and cancelled; any other only gets the request |
| Executor.TaskExecutor.AbortQueuedTasks | bin/runtime/async_runtime.c:1547-1554 | the popping loop does what the recursive specification says |
| Executor.TaskExecutor.Initialise | bin/runtime/async_runtime.c:1616-1679 | the state after a successful initialisation |
| Executor.TaskExecutor.WorkerSection | bin/runtime/async_runtime.c:1567-1590 | one pass of the worker loop: pop, exit or sleep |
| Executor.TaskExecutor.BeginSection | bin/runtime/async_runtime.c:1697-1712 | the section before the body, and whether the body runs |
| Executor.TaskExecutor.FinishSection | bin/runtime/async_runtime.c:2010-2026 | the section of finish: finished exactly when no cancel was requested and the mode is RUNNING or DRAINING, else cancelled |
| Executor.TaskExecutor.EndSection | bin/runtime/async_runtime.c:1718-1728 | the section after the body: the same for a task that is not over yet, nothing for one that is |
| Executor.TaskExecutor.EnqueueSection | bin/runtime/async_runtime.c:1733-1780 | one pass of enqueue: admit, refuse, assist, or sleep for room |
| Executor.TaskExecutor.WaitSection | bin/runtime/async_runtime.c:2102-2143 | one pass of wait: over, give up, propagate a cancel, assist only while RUNNING, or sleep |
| Executor.TaskExecutor.ShutdownBegin | bin/runtime/async_runtime.c:1874-1896 | shutdown up to its loop |
| Executor.TaskExecutor.ShutdownSection | bin/runtime/async_runtime.c:1898-1926 | one pass of the shutdown loop, including its drain and deadline branches |
| Executor.TaskExecutor.ShutdownFinish | bin/runtime/async_runtime.c:1953-1968 | the final reset |
| CoroScheduler.Scheduler.FindTask | bin/runtime/async_runtime.c:876-885 | finds the listed task with the handle, or nothing |
| CoroScheduler.Scheduler.Create | bin/runtime/async_runtime.c:898-918 | a new task joins the set of tasks, unqueued and unfinished |
| CoroScheduler.Scheduler.Schedule | bin/runtime/async_runtime.c:975-1002 | refused for a missing or finished task; otherwise the wake data is replaced and the task is queued once |
| CoroScheduler.Scheduler.PopReady | bin/runtime/async_runtime.c:1039-1053 | takes the head of the ready list, clears its queued flag and keeps the tail right |
| CoroScheduler.Scheduler.NextStep | bin/runtime/async_runtime.c:1055-1077 | run_one up to the step: a ready task, or one event and another try |
| CoroScheduler.Scheduler.EndStep | bin/runtime/async_runtime.c:1082-1092 | after the step the task is looked up again and marked done if it completed and still exists |
| CoroScheduler.Scheduler.IsDone | bin/runtime/async_runtime.c:1095-1107 | done exactly for a live finished task |
| CoroScheduler.Scheduler.Resolve | bin/runtime/async_runtime.c:887-896 | a bound token names its task, any other is taken for a handle |
| CoroScheduler.Scheduler.BindToken | bin/runtime/async_runtime.c:1004-1037 | rebinding replaces the task, so tokens stay unique; a finished or missing task is refused |
| CoroScheduler.Scheduler.Destroy | bin/runtime/async_runtime.c:920-973 | the task leaves the set and the ready list wherever it stands, and every binding to it goes |
| CoroScheduler.Scheduler.UnlinkReady | bin/runtime/async_runtime.c:943-956 | unlinking from head, middle or tail is first-occurrence removal, and the tail pointer follows |
| CoroScheduler.Scheduler.PurgeBindings | bin/runtime/async_runtime.c:958-968 | exactly the bindings of the task are unlinked |
| CoroRuns.RunsStayWellFormed | bin/runtime/async_runtime.c:875-1093 | over any run: queued exactly when in the ready list, once; ready tasks exist; no binding outlives its task |
| CoroRuns.PopsTheOldest | bin/runtime/async_runtime.c:1039-1053 | the task popped next has waited longest |
| CoroRuns.StepsFinishedIff | bin/runtime/async_runtime.c:1055-1093 | a popped task is already done exactly when someone had queued it again before the step that completed it ended |
| CoroRuns.BecomesDoneInQueueIff | bin/runtime/async_runtime.c:1079-1093 | a task comes to be done and queued at once in exactly one way: a step of it completes while it is queued |
| CoroRuns.FinishedTaskStepsAgain | bin/runtime/async_runtime.c:1055-1093 | a run in which a done task is stepped again |
| CoroRuns.EventReachesBoundTask | bin/runtime/async_runtime.c:1061-1072 | an event on a bound token queues its live task with the event's data |
| CoroCompletion.DoneIff | bin/runtime/async_runtime.c:1086-1093 | after any run a live task is done if and only if a step of it reported completion since it was last created |
| CoroCompletion.NewIsIdle | bin/runtime/async_runtime.c:898-918 | a new task is not done, not ready and has no wake data; every other task is as before |
| CoroCompletion.PopTakesHead | bin/runtime/async_runtime.c:1039-1053 | popping takes the head of the queue alone and leaves its wake data |
| CoroCompletion.DoneForGood | bin/runtime/async_runtime.c:920-1093 | a done task stays done until it is destroyed, and one that is not in the queue is never queued again |
| CoroCompletion.DoneIsInert | bin/runtime/async_runtime.c:975-1037 | waking a done task, binding a token to it or an event for it changes nothing |
| CoroCompletion.WakeReaches | bin/runtime/async_runtime.c:975-1002 | a wake-up puts an unfinished task into the queue with the given data and leaves every other task alone |
| CoroCompletion.BindingNames | bin/runtime/async_runtime.c:887-896 | a token names the unfinished task it was last bound to, or the handle it equals when it is bound to nothing |
| CoroCompletion.KillTakesOne | bin/runtime/async_runtime.c:920-973 | destroying a task takes its place in the queue and its bindings, and nothing of any other task |
| CoroCompletion.EventIsNext | bin/runtime/async_runtime.c:1055-1077 | with nothing ready an event for an unfinished task makes it the next to step; any other event leaves nothing to step; with a task ready no event is taken |
| WakeReactor.WakeList.Push | bin/runtime/async_runtime.c:642-664 | the locked part of a post appends the wake |
| WakeReactor.WakeList.Take | bin/runtime/async_runtime.c:689-715 | the locked part of a poll takes the oldest wake |
| WakeReactor.BlockedRunnerWillWake | bin/runtime/async_runtime.c:642-797 | with one runner and any posters, a runner blocked in poll while a wake is queued has a readable pipe or a poster about to write |
| WakeReactor.DeliveredInOrder | bin/runtime/async_runtime.c:642-797 | delivered wakes, the one in hand and the queued ones are the posts, in order |
| WakeReactor.RunnerCases | bin/runtime/async_runtime.c:689-797 | a poll takes the oldest wake whenever there is one, blocks if and only if there is none, and after waiting reads one byte and hands out what it took |
| WakeReactor.TwoRunnersLoseAWake | bin/runtime/async_runtime.c:689-797 | with two runners a run ends blocked on a queued wake with an empty pipe |
| CodeEditor.UndoLog.Truncate | engine/engine_game_tree.mettle:432-454 | drops the redo tail and recomputes the arena mark from deletions only |
| CodeEditor.UndoLog.PushInsert | engine/engine_game_tree.mettle:475-515 | truncates, then merges into the last typed run, starts over, or appends a record; says whether a merged byte is inside the arena |
| CodeEditor.UndoLog.PushDelete | engine/engine_game_tree.mettle:518-548 | truncates, restarts a full arena, leaves a deletion unrecorded when the table is full, or appends a record |
| CodeEditor.CodeEditor.DeleteRaw | engine/engine_game_tree.mettle:552-560 | the shifting loop removes the range and terminates the text |
| CodeEditor.CodeEditor.InsertRaw | engine/engine_game_tree.mettle:562-578 | the shifting and copying loops splice the bytes in, or refuse a text that would reach the last usable byte |
| CodeEditor.CodeEditor.Undo | engine/engine_game_tree.mettle:580-600 | one undo applies the inverse of the record under the cursor |
| CodeEditor.CodeEditor.Redo | engine/engine_game_tree.mettle:602-622 | one redo applies the record at the cursor |
| CodeEditor.CodeEditor.DeleteSelection | engine/engine_game_tree.mettle:718-739 | records and removes the selection |
| CodeEditor.CodeEditor.InsertByte | engine/engine_game_tree.mettle:826-853 | typing replaces the selection, then inserts one byte at the caret; says whether its copy is inside the arena |
| CodeEditor.CodeEditor.Backspace | engine/engine_game_tree.mettle:855-881 | erases the selection or the byte before the caret |
| EditorBytes.SelectionGoes | engine/engine_game_tree.mettle:696-739 | deleting takes out exactly the bytes from the smaller to the larger of caret and anchor: those before stay, those behind move up, the caret ends at the smaller, the selection is off |
| EditorBytes.EitherDirection | engine/engine_game_tree.mettle:696-739 | exchanging caret and anchor gives the same text and caret |
| EditorBytes.TypedByte | engine/engine_game_tree.mettle:826-853 | a typed byte stands in the place of the selection, or of nothing without one, and the caret behind it; in a full text the byte is refused and the selection still goes |
| EditorBytes.BackspacedBytes | engine/engine_game_tree.mettle:855-881 | backspace takes out the selection, or the byte before the caret, or nothing at the start of the text |
| EditorBytes.UndoneInsertion | engine/engine_game_tree.mettle:580-600 | undo of an insertion takes its bytes out and leaves the caret where they began |
| EditorBytes.UndoneDeletion | engine/engine_game_tree.mettle:580-600 | undo of a deletion puts its bytes back unless the text would get too long, and leaves the caret behind them either way |
| EditorBytes.RedoneInsertion | engine/engine_game_tree.mettle:602-622 | redo of an insertion, likewise |
| EditorBytes.RedoneDeletion | engine/engine_game_tree.mettle:602-622 | redo of a deletion takes the bytes out again and leaves the caret where they began |
| EditorBytes.UndoCaretInsideIff | engine/engine_game_tree.mettle:562-600 | undo leaves the caret inside the text unless the deletion it undoes no longer fits and reached past the end of the text |
| EditorBytes.NothingToGoBackTo | engine/engine_game_tree.mettle:580-622 | with nothing to undo or redo the call changes nothing |
| EditorBytes.SelectionUndone | engine/engine_game_tree.mettle:718-739 | a recorded deletion of a selection, undone: the caret stands behind the bytes that are back, which are all of them exactly when the text had at most 65534; redone: text and caret as after the deletion |
| UndoTheorems.UndoSteps | engine/engine_game_tree.mettle:580-600 | undo goes back over one record exactly, given the deleted bytes are intact |
| UndoTheorems.RedoSteps | engine/engine_game_tree.mettle:602-622 | redo goes forward over one record exactly, given that record's bytes are intact |
| UndoTheorems.UndoTimesShows | engine/engine_game_tree.mettle:580-600 | k undos show the text k records earlier |
| UndoTheorems.UndoThenRedo | engine/engine_game_tree.mettle:580-622 | k undos and k redos restore the identical text, given the bytes of the k records are intact |
| UndoTheorems.HighWaterCovers | engine/engine_game_tree.mettle:435-448 | the recomputed mark covers every surviving deletion, tightly |
| UndoTheorems.TruncateExact | engine/engine_game_tree.mettle:432-454 | truncation keeps every surviving deletion's bytes below the mark (and, edited where disciplined, every insertion's) |
| UndoTheorems.AppendExact | engine/engine_game_tree.mettle:456-548 | a new record extends the history and harms no bytes that matter |
| UndoTheorems.MergeExact | engine/engine_game_tree.mettle:478-500 | coalescing replaces the last text of the history and harms no bytes that matter |
| UndoRuns.DeleteExactIff | engine/engine_game_tree.mettle:518-548 | a deletion keeps the history exact if and only if it gets a record: the table has room or the arena restart empties it |
| UndoRuns.DeleteUndoneIff | engine/engine_game_tree.mettle:518-600 | the next undo shows the text from before a deletion if and only if the deletion got a record |
| UndoRuns.UnrecordedUndo | engine/engine_game_tree.mettle:518-600 | after a deletion without a record the next undo shows a text exactly that many bytes shorter than the promised one |
| UndoRuns.PutExact | engine/engine_game_tree.mettle:475-515 | typing keeps the history exact |
| UndoRuns.StepExact | engine/engine_game_tree.mettle:417-622 | every operation whose deletion gets a record keeps the history exact |
| UndoRuns.UndoIsExact | engine/engine_game_tree.mettle:432-600 | in any session of edits and undos whose deletions all get records, branching after undo, k undos show exactly the promised earlier text; a byte that a merge would store outside the arena is dropped, and undo does not need it |
| UndoFull.UndoRightIff | engine/engine_game_tree.mettle:417-600 | from any exact history, every number of undos is right all along a session of edits and undos if and only if every deletion of the session gets a record |
| UndoFull.LoadedUndoRightIff | engine/engine_game_tree.mettle:417-600 | in particular from a freshly loaded text |
| UndoFull.SessionFillsTable | engine/engine_game_tree.mettle:518-600 | a session from an empty text that fills the record table: a backspace then gets no record, and the next undo shows 2046 bytes where 2048 had been typed |
| UndoRuns.RedoIsExact | engine/engine_game_tree.mettle:456-622 | in any session whose deletions all get records, edited over a redo tail only at the bottom or right above a deletion, k undos then k redos restore the text, for every k |
| UndoRuns.HistoryWasShown | engine/engine_game_tree.mettle:417-622 | every text the history promises was on screen during the session |
| UndoRuns.DeletionUndoneIff | engine/engine_game_tree.mettle:562-600 | a recorded deletion can be undone if and only if the text had at most 65534 bytes |
| UndoRuns.LayoutKeptIff | engine/engine_game_tree.mettle:432-454 | recording an edit of any kind over a redo tail keeps the records' bytes apart if and only if the edit is at the bottom or right above a deletion |
| UndoRuns.UndisciplinedRedo | engine/engine_game_tree.mettle:432-622 | a session outside that rule whose redo shows bytes never typed there |
| UndoRuns.ExactMergeFits | engine/engine_game_tree.mettle:478-500 | while the records' bytes are apart, no merge stores outside the arena |
| UndoRedo.RedoShowsIff | engine/engine_game_tree.mettle:602-622 | one redo shows the next text if and only if the bytes of its record are intact |
| UndoRedo.RedoRightIff | engine/engine_game_tree.mettle:580-622 | every number of undos followed by at most as many redos shows the promised text if and only if the bytes of every insertion below the cursor are intact |
| UndoRedo.DamageShows | engine/engine_game_tree.mettle:580-622 | when a record's bytes are gone, undoing past it and redoing once shows a wrong text or no text |
| UndoRedo.AppendRedoIff | engine/engine_game_tree.mettle:456-548 | a new record of any kind over a redo tail leaves every surviving record intact if and only if it writes no byte of theirs to another value |
| UndoRedo.MergeRedoIff | engine/engine_game_tree.mettle:478-500 | so does a merge, if and only if it also stays inside the arena |
| UndoRedo.PutRedoIff | engine/engine_game_tree.mettle:475-622 | typing a byte leaves redo right for every number of undos and redos if and only if it stays inside the arena and changes no surviving record's bytes |
| UndoRedo.DeleteRedoIff | engine/engine_game_tree.mettle:518-622 | a recorded deletion leaves redo right if and only if it changes no surviving record's bytes |
| UndoDamage.DamageCanHide | engine/engine_game_tree.mettle:432-622 | a session from an empty text after which equal undos and redos end on the right text although a redo on the way is wrong |
| UndoArena.MergeStraysIff | engine/engine_game_tree.mettle:478-500 | a merge stores its byte outside the arena if and only if the surviving insertion ends at or past the arena's end while the mark recomputed by truncation is below it |
| UndoArena.DisciplinedNeverStrays | engine/engine_game_tree.mettle:456-548 | no session edited over a redo tail only at the bottom or right above a deletion stores a byte outside the arena |
| UndoArena.SmallSessionNeverStrays | engine/engine_game_tree.mettle:456-548 | no session from a loaded text whose operations record at most 262144 bytes in all stores a byte outside the arena |
| UndoArena.StepWithin | engine/engine_game_tree.mettle:456-548 | each operation records at most its cost, and strays only when that exceeds the room left |
| UndoStray.SessionStrays | engine/engine_game_tree.mettle:432-515 | a session from an empty text after which typing one more byte stores it outside the arena |
| Channel.MethChannel.constructor | bin/runtime/meth_thread.c:306-328 | a capacity below 1 leaves the buffer unallocated |
| Channel.MethChannel.Grow | bin/runtime/meth_thread.c:289-302 | doubling keeps the items in order |
| Channel.MethChannel.SendSection | bin/runtime/meth_thread.c:331-375 | one pass of send: waits exactly when full and open, is refused exactly when closed, otherwise stores |
| Channel.MethChannel.RecvSection | bin/runtime/meth_thread.c:378-409 | one pass of receive: waits exactly when empty and open, otherwise takes the oldest item, or nothing exactly when empty and closed |
| Channel.MethChannel.TryRecv | bin/runtime/meth_thread.c:412-439 | the oldest item or nothing |
| Channel.MethChannel.Close | bin/runtime/meth_thread.c:442-459 | only the closed flag changes |
| ChannelWaits.NoLostWakeups | bin/runtime/meth_thread.c:331-459 | while receivers sleep, items are at most the woken receivers still to run; while senders sleep, room is at most the woken senders; after close nobody sleeps |
| ChannelWaits.FirstInFirstOut | bin/runtime/meth_thread.c:331-459 | received then buffered items are the sent ones in order |
| ChannelWaits.ReceiverSleepsIff | bin/runtime/meth_thread.c:378-409 | a receiver goes to sleep if and only if the channel is empty and open; otherwise it takes the oldest item, and comes back with nothing only from a closed, empty channel |
| ChannelWaits.SenderSleepsIff | bin/runtime/meth_thread.c:331-375 | a sender goes to sleep if and only if the channel is open, has its capacity and is full; otherwise its value is stored behind the others if and only if the channel is open |
| ChannelWaits.OneWakesOne | bin/runtime/meth_thread.c:331-439 | a stored value wakes one sleeping receiver and a taken one wakes one sleeping sender, if there is one, and nobody else |
| ChannelWaits.CloseWakesAll | bin/runtime/meth_thread.c:442-459 | closing keeps the items and wakes every sleeper, and nothing opens the channel again |
| ChannelWaits.NobodyIsLost | bin/runtime/meth_thread.c:331-459 | no operation of another thread takes a sleeping or woken thread out of its call |
| ChannelWaits.Handover | bin/runtime/meth_thread.c:331-409 | a receiver that comes first sleeps until the sender wakes it, and then gets the value |
| ChannelWaits.CapacityOnlySetOnce | bin/runtime/meth_thread.c:289-375 | the capacity never changes after the first send |
| ChannelWaits.ZeroCapacityBlocksIff | bin/runtime/meth_thread.c:331-365 | a channel made with capacity 0 blocks a send exactly when it is open and holds 16 items |
| ChannelWaits.SeventeenthSendBlocks | bin/runtime/meth_thread.c:331-365 | sixteen sends to such a channel make the seventeenth block |
| Line.VpPut | engine/engine_viewport.mettle:748-751 | writes one pixel if it lies in the buffer |
| Line.VpLineBresenham | engine/engine_viewport.mettle:817-846 | the loop paints exactly the points of the path |
| Line.VpLineCut | engine/engine_viewport.mettle:777-806 | the branch taken for the outcode, with truncating division and its zero guards |
| Line.VpLine | engine/engine_viewport.mettle:765-815 | the clipping loop ends for every segment and rectangle, and draws the clipped segment or nothing |
| LineSpec.PathIsNear | engine/engine_viewport.mettle:817-846 | after i horizontal and j vertical steps, twice i*dy - j*dx is at most the longer extent, and the longer axis steps every turn |
| LineSpec.PathEnds | engine/engine_viewport.mettle:817-846 | the path has max(dx, dy) + 1 points, starts and ends on the end points, reaches the target nowhere before, and stays in their box |
| LineSpec.ErrorFits | engine/engine_viewport.mettle:824-842 | the doubled error stays within three times the longer extent |
| LineSpec.TruncBetween | engine/engine_viewport.mettle:777-806 | a truncated proportional cut lies between its ends, off by less than the divisor |
| LineSpec.RoundShrinks | engine/engine_viewport.mettle:773-813 | each clipping round divides by something non-zero, cuts inside the segment's box, near its line, and strictly shortens its Manhattan length |
| LineSpec.ClippedInside | engine/engine_viewport.mettle:765-815 | a segment that survives clipping has both ends in the rectangle and in the original box |
| LineSpec.VisibleEndKept | engine/engine_viewport.mettle:765-815 | an end already inside is kept, and the segment is drawn |
| LineSpec.DrawStaysInside | engine/engine_viewport.mettle:765-846 | no pixel outside the viewport rectangle changes |
| LineSpec.DrawColoursPath | engine/engine_viewport.mettle:765-846 | a segment inside the rectangle has every one of its path pixels coloured |
| LineClip.ContinuesIff | engine/engine_viewport.mettle:773-776 | a round goes on unless both ends are inside or both lie strictly beyond one and the same side |
| LineClip.RejectedIff | engine/engine_viewport.mettle:765-815 | in a rectangle that is not empty a segment is rejected if and only if both ends lie beyond one side, or its first end is outside and the border met first is crossed a whole pixel or more beyond the rectangle; behind a corner the line from the rounded crossing of the corner's row counts |
| LineClip.RejectedIffTrue | engine/engine_viewport.mettle:765-815 | the same told from the true line by cross-multiplication: rejected if and only if both ends lie beyond one side, or the true line misses by a whole pixel, or the dropped fraction at a corner alone makes it miss |
| LineClip.ThroughPixelRejectedIff | engine/engine_viewport.mettle:765-815 | a segment whose line goes through a pixel of the rectangle is rejected if and only if it is lost at a corner |
| LineClip.PixelLostAtCorner | engine/engine_viewport.mettle:777-806 | such a segment: it goes through a pixel of a ten by ten rectangle and is not drawn |
| LineClip.AcrossIsDrawn | engine/engine_viewport.mettle:765-815 | a segment from beyond the left side to beyond the right one or back, both ends level with the rectangle, is drawn from border to border |
| LineClip.DownIsDrawn | engine/engine_viewport.mettle:765-815 | the same from top to bottom |
| LineClip.EmptyShowsNothing | engine/engine_viewport.mettle:765-815 | in an empty rectangle every segment is rejected |
| LineClip.DrawnPixels | engine/engine_viewport.mettle:748-751 | of a buffer of whole rows, drawing colours exactly the pixels on the clipped segment's path, the first row and column included |
| TerrainStore.TerrainStore.constructor | engine/engine_terrain_store.mettle:46-67 | capacity default 32, at most 512 |
| TerrainStore.TerrainStore.FindIndex | engine/engine_terrain_store.mettle:111-124 | the first slot with the id |
| TerrainStore.TerrainStore.Clear | engine/engine_terrain_store.mettle:99-109 | no patches |
| TerrainStore.TerrainStore.Remove | engine/engine_terrain_store.mettle:148-166 | frees the patch and moves the last slot into the gap; the others keep their own height arrays |
| TerrainStore.TerrainStore.CreateGrid | engine/engine_terrain_store.mettle:193-227 | validates, drops the old grid even when the table turns out to be full, then adds a zeroed one |
| TerrainStore.TerrainStore.CopyFrom | engine/engine_terrain_store.mettle:454-485 | a deep copy into fresh height arrays, up to the capacity |
| TerrainStore.TerrainStore.Sample | engine/engine_terrain_store.mettle:270-322 | clamped bilinear sampling, 0 without a patch |
| TerrainStore.TerrainStore.BrushStamp | engine/engine_terrain_store.mettle:501-583 | the in-place nested loops: radius test, falloff, four effects, dirty mark, number of touched cells |
| TerrainStore.TerrainStore.SetCell | engine/engine_terrain_store.mettle:585-597 | writes one cell when in range |
| TerrainTable.RemoveKeeps | engine/engine_terrain_store.mettle:148-166 | ids stay distinct, the id is gone, every other patch survives |
| TerrainTable.CreateKeeps | engine/engine_terrain_store.mettle:193-227 | ids stay distinct and grids well-formed |
| TerrainSpec.SampleWithinCorners | engine/engine_terrain_store.mettle:270-322 | a sample lies between the lowest and highest of its four cells |
| TerrainSpec.SampleAtNode | engine/engine_terrain_store.mettle:270-322 | sampling at a node returns the stored height |
| TerrainSpec.LevellingStaysWithin | engine/engine_terrain_store.mettle:501-583 | SMOOTH and FLATTEN stamps push no cell outside the previous range although neighbours are read in place |
| TerrainSpec.RaiseThenLower | engine/engine_terrain_store.mettle:501-583 | a RAISE stamp and the matching LOWER stamp, in either order, restore every cell |
| TerrainSurface.SampleInCell | engine/engine_terrain_store.mettle:290-322 | inside a cell every corner counts with the product of its shares along x and along z |
| TerrainSurface.SampleOnEdge | engine/engine_terrain_store.mettle:290-322 | along a grid edge the sample is the straight line between the two nodes, in either direction |
| TerrainSurface.PlaneIsExact | engine/engine_terrain_store.mettle:270-322 | a height field affine in x and z is reproduced everywhere |
| TerrainSurface.SampleClamps | engine/engine_terrain_store.mettle:287-290 | beyond the border the sample is the one on the border |
| TerrainEffects.StampedGrid | engine/engine_terrain_store.mettle:501-583 | what a stamp leaves in every cell, by its op and invert flag: raised or lowered by the weighted strength, a quarter of the weight towards the height at the centre, or half of it towards a mean of old right and lower and already smoothed left and upper neighbours; cells out of reach keep their height |
| TerrainEffects.StampedCell | engine/engine_terrain_store.mettle:530-575 | the same for one turn of the loops, on the grid as it is then |
| TerrainEffects.AverageIsMean | engine/engine_terrain_store.mettle:553-571 | the average is the mean over a cell and those of its four neighbours that lie in the grid |
| TerrainEffects.TouchedCount | engine/engine_terrain_store.mettle:524-583 | the number a stamp returns is that of the cells nearer to its centre than the radius |
| Scene.Scene.constructor | engine/engine_scene.mettle:256-288 | capacity default 256, at most 8192; 128 patches |
| Scene.Scene.IndexOf | engine/engine_scene.mettle:343-409 | the row with a live id, never for 0 |
| Scene.Scene.IsDescendant | engine/engine_scene.mettle:1100-1115 | climbs at most 256 links |
| Scene.Scene.SetParent | engine/engine_scene.mettle:1117-1139 | accepted exactly for a live child, a different live parent or none, and no descendant found |
| Scene.Scene.Add | engine/engine_scene.mettle:957-1010 | a root row with the next id, or 0 when full |
| Scene.Scene.Remove | engine/engine_scene.mettle:1143-1178 | swap with the last row, drop the patch, clear selection and hover, orphan the children |
| Scene.Scene.SetSelected | engine/engine_scene.mettle:1188-1196 | a dead id selects nothing |
| Scene.Scene.SetHover | engine/engine_scene.mettle:1212-1217 | any id |
| Scene.Scene.BindTerrain | engine/engine_scene.mettle:1277-1308 | a terrain entity stores the path and gets a fresh grid filled from the given heights; fails without filling when the store refuses |
| Scene.Scene.CopyFrom | engine/engine_scene.mettle:939-954 | rows in order, marks, next id and patches; refused when the rows do not fit |
| SceneTheorems.AddSound | engine/engine_scene.mettle:957-1010 | ids stay unique and below the next id, the links a forest |
| SceneTheorems.RemoveSound | engine/engine_scene.mettle:1143-1178 | both swap-with-last removals and the orphaning keep ids, forest, selection and patch owners |
| SceneTheorems.SetParentSoundIff | engine/engine_scene.mettle:1100-1139 | a reparenting keeps the scene sound if and only if, when accepted, the whole climb from the new parent misses the child |
| SceneTheorems.SetParentSound | engine/engine_scene.mettle:1100-1139 | with at most 256 rows a link is refused exactly when it would close a cycle |
| SceneTheorems.RowsAreEnough | engine/engine_scene.mettle:1100-1115 | in a forest no climb takes more links than there are rows |
| SceneTheorems.StepSound | engine/engine_scene.mettle:957-1308 | an operation keeps the scene sound if and only if it is not an accepted reparenting whose whole climb meets the child |
| SceneTheorems.RunSoundIff | engine/engine_scene.mettle:957-1308 | a scene stays sound all along a run (ids unique and below next_id, links an acyclic forest over live ids, the selection live or 0, each patch owned by one live entity) if and only if no accepted reparenting of the run closes a cycle |
| SceneTheorems.CycleNeedsRows | engine/engine_scene.mettle:1100-1139 | an accepted reparenting closes a cycle only in a scene that holds more than 256 entities |
| SceneTheorems.RunSound | engine/engine_scene.mettle:957-1308 | so a run is sound, whatever the capacity, when the scene holds at most 256 entities at each reparenting; refused cyclic links are part of such runs |
| SceneTheorems.NewSceneRunSound | engine/engine_scene.mettle:256-288 | so is every state reached from a new scene with room for at most 256 entities, or of any capacity by at most 256 additions |
| SceneTheorems.LongChainBecomesCycle | engine/engine_scene.mettle:957-1139 | more than 256 entities added to a new scene, each hung under the one before, after which the root is accepted under the last one and makes a cycle |
| SceneTheorems.BindFills | engine/engine_scene.mettle:1277-1308 | a bind leaves the path, cut at 519 bytes, in the entity even when it gets no grid; after a successful one every cell of its grid holds its given height |
| SceneEffects.AddEffect | engine/engine_scene.mettle:957-1010 | looked up by id, the new entity is a root with the given fields, and every other entity is as before |
| SceneEffects.RemoveEffect | engine/engine_scene.mettle:1143-1178 | the removed entity and its patch are gone, its marks cleared, its children roots; every other entity and patch is as before |
| SceneEffects.SetParentEffect | engine/engine_scene.mettle:1117-1139 | an accepted link changes the parent of the child and nothing else, a refused one nothing |
| SceneEffects.MarkEffect | engine/engine_scene.mettle:1188-1217 | selecting a live entity selects it, anything else selects nothing; hovering takes any id; nothing else changes |
| SceneEffects.MoveEffect | engine/engine_scene.mettle:1607-1609 | overwriting a position changes that entity alone |
| SceneEffects.BindEffect | engine/engine_scene.mettle:1277-1308 | a bind changes the path of one terrain entity and its patch, and nothing else; on any other id it changes nothing |
| SceneEffects.SetCellEffect | engine/engine_terrain_store.mettle:585-597 | writing a cell changes that cell alone and marks the patch; outside the grid it only marks |
| SceneEffects.CreateEffect | engine/engine_terrain_store.mettle:193-227 | a created grid has the given size, at least two by two, is flat at 0 and marked; the other patches stay |
| SceneEffects.CopyEffect | engine/engine_scene.mettle:939-954 | a copy that fits takes over rows, marks and next id, and the patches as far as there is room; else nothing changes |
| PlayMode.RuntimeState.BeginPlay | engine/engine_runtime.mettle:88-103 | snapshots the scene into storage that shares nothing with it; refused when it does not fit |
| PlayMode.RuntimeState.StopPlay | engine/engine_runtime.mettle:105-118 | copies the snapshot back and resets the clock |
| PlayMode.RuntimeState.FrameTick | engine/engine_runtime.mettle:130-162 | clamped frame time, at most five fixed steps, scripts run once per step in order, leftover dropped at the limit; returns whether the scripts of one of the steps reported a change |
| PlayMode.RuntimeState.PlaySession | engine/engine_runtime.mettle:88-162 | begin, any frames of edits and scripts, stop: rows in order, selection, hover, next id and every heightmap come back exactly; a session begun while playing copies the older snapshot over what was played, if its rows fit |
| PlaySpec.CopyRestoresIff | engine/engine_scene.mettle:939-954 | copying out and back restores a scene exactly if and only if its patches fit the snapshot's store |
| PlaySpec.TickExact | engine/engine_runtime.mettle:134-161 | a frame leaves less than a step over, and loses time exactly when more than five steps were due |
| PlaySpec.RunExact | engine/engine_runtime.mettle:130-162 | over any frames simulated time never passes elapsed time, and accounts for all of it exactly when every frame kept up |
| PlaySpec.FrameCountsInFull | engine/engine_runtime.mettle:130-162 | a frame time from 0 to a quarter of a second counts in full: the most sixtieths that fit are simulated, never more than five, and the rest is kept unless there were five |
| PlaySpec.ReportsIff | engine/engine_runtime.mettle:144-161 | a frame reports a change if and only if the scripts of one of its steps did |
| PlayProtocol.IntToDec | bin/stdlib/std/conv.mettle:85-128 | prints canonical signed decimal for every 64-bit number |
| PlayProtocol.WriteI32 | engine/engine_play_protocol.mettle:95-112 | appends the number and a space, or -1 when they leave no room for the terminator; called with a -1, it writes one byte before the buffer |
| PlayProtocol.StrlenCap | engine/engine_play_protocol.mettle:138-147 | length up to NUL, CR, LF or the limit |
| PlayProtocol.WriteLenStr | engine/engine_play_protocol.mettle:149-172 | appends the length, the cut string and a space, or -1; called with a -1, it writes one byte before the buffer |
| PlayProtocol.EncodeWelcome | engine/engine_play_protocol.mettle:174-194 | writes outside the buffer if and only if it has a positive capacity that the fields do not fit; otherwise the line for the message, terminated, or -1 when the newline does not fit |
| PlayProtocol.EncodeSceneBegin | engine/engine_play_protocol.mettle:196-215 | likewise |
| PlayProtocol.EncodeSceneEnd | engine/engine_play_protocol.mettle:217-229 | the line, terminated, or -1 below 11 bytes; never outside the buffer |
| PlayProtocol.EncodeEntity | engine/engine_play_protocol.mettle:231-267 | likewise, with both strings cut at their limits |
| PlayProtocol.EncodeInput | engine/engine_play_protocol.mettle:269-292 | likewise |
| PlayProtocol.EncodeXform | engine/engine_play_protocol.mettle:294-322 | likewise |
| PlayProtocol.EncodeStop | engine/engine_play_protocol.mettle:324-343 | likewise, for the reason, which is not cut |
| PlayProtocol.KilobyteIsEnoughIff | engine/engine_play_protocol.mettle:174-343 | a line is shorter than 1024 bytes if and only if it is not a STOP with a reason over 1016 bytes |
| PlayDecoder.NextTokenInto | engine/engine_play_protocol.mettle:509-525 | skips spaces, then copies up to a space, newline, NUL or the capacity |
| PlayDecoder.Atol | engine/engine_play_protocol.mettle:345-364 | sign and digits in 64-bit wrapping arithmetic |
| PlayDecoder.Starts | engine/engine_play_protocol.mettle:495-507 | prefix test |
| PlayDecoder.PlayPacket.ReadLenStr | engine/engine_play_protocol.mettle:527-560 | a length, one space, then that many bytes up to a break, keeping what fits |
| PlayDecoder.PlayPacket.DecodeLine | engine/engine_play_protocol.mettle:367-493 | resets the packet, then decodes by the keyword's prefix in the source's order |
| PlayDecoder.LineReader.ProcessBytes | examples/engine_play_client.mettle:240-264 | the byte loop splits lines, drops CR and forgets a line that outgrows the buffer |
| PlayWireTheorems.DecimalRoundTrip | bin/stdlib/std/conv.mettle:85-128 | parsing undoes printing on every 64-bit number |
| PlayWireTheorems.LineRoundTrip | engine/engine_play_protocol.mettle:174-560 | decoding an encoded WELCOME, SCENE_BEGIN, SCENE_END, ENTITY, INPUT, XFORM or STOP line that fits the 2048-byte line buffer returns every int32 field and both strings |
| PlayWireTheorems.OneNewlineIff | engine/engine_play_protocol.mettle:174-343 | an encoded line ends with a newline, and holds no other if and only if it is not a STOP whose reason brings one |
| PlayWireTheorems.OnePacketIff | examples/engine_play_client.mettle:240-264 | a message is received as one packet if and only if it is on one line |
| PlayWireTheorems.PacketsAreNewlines | examples/engine_play_client.mettle:240-264 | a receiver sees one packet for every newline it is fed, whatever the bytes |
| PlayWireTheorems.DeliveredExactly | examples/engine_play_client.mettle:240-264 | any messages on one line each, encoded, concatenated and cut into any chunks, are seen once each and in order: with carriage returns dropped, and, of a line over 2047 bytes, what follows the last forgotten 2048 |
| PlayWireTheorems.ChunksDoNotMatter | examples/engine_play_client.mettle:240-264 | a receiver cannot tell how the bytes were chunked |
| PlayWireTheorems.StreamsSplitUniquely | engine/engine_play_protocol.mettle:174-343 | equal byte streams carry equal packets |
| PlayWireTheorems.CutIsWholeIff | engine/engine_play_protocol.mettle:138-147 | a string field arrives whole if and only if it fits the limit and holds no NUL, CR or LF |
| PlayWireTheorems.StopIsWholeIff | engine/engine_play_protocol.mettle:486-490 | a stop reason arrives whole if and only if it is one word of at most 519 bytes without CR or LF |
| PlayWireFormat.DigitsAreDecimal | bin/stdlib/std/conv.mettle:85-128 | the k-th digit from the right is that of the number in base ten, and only 0 begins with a 0 |
| PlayWireFormat.LineForms | engine/engine_play_protocol.mettle:174-343 | the seven lines, as ASCII words and fields in order |
| PlayWireFormat.FieldsInOrder | engine/engine_play_protocol.mettle:95-112 | numbers follow each other in order, each with one space behind it |
| PlayWireFormat.StringField | engine/engine_play_protocol.mettle:138-172 | a string goes out as its length, a space, its bytes and a space; it ends at its own end, at a NUL, LF or CR, or at the limit |
| PlayWireFormat.KindByWord | engine/engine_play_protocol.mettle:367-493 | what a line is is decided by the word it begins with; a line that begins with none of the seven is nothing |
| PlayWireFormat.PastTheEnd | engine/engine_play_protocol.mettle:509-560 | behind the end of a line numbers read as 0 and strings as empty |
| PlayWireFormat.AtolStops | engine/engine_play_protocol.mettle:345-364 | a numeral is read up to the first byte that is no digit |
| PlayWireFormat.LongToken | engine/engine_play_protocol.mettle:509-525 | a number is read from at most 63 bytes |

## Left out

Assumptions of the executor and the reactor:

- One shutdown call at a time, no reset racing it, and `finish` called once, by the running body: the compiler lowering that calls these is not shown.
- Handles are never reused and a header is started at most once: restarted after its `finish` and before the last section of execute_task, it would be settled by that section while it is queued.
- One reactor runner; `WakeReactor.TwoRunnersLoseAWake` shows what a second one breaks. The wake pipe never fills, and descriptor events and poll errors only appear as time-outs.
- Memory and thread start never fail, so `init_failed` is set only through STOPPED.
- The Windows variants, environment parsing, clocks, the coroutine branch of `meth_async_wait` and `finish` on a coroutine header.

Values and their ranges:

- Loaded text is at most 65534 bytes in the session theorems; `UndoRuns.DeletionUndoneIff` says why.
- A byte that a merge stores outside the arena is dropped; what it overwrites there is not modelled. `UndoArena.MergeStraysIff` says when that happens.
- Line coordinates are unbounded integers; `LineSpec.ErrorFits` bounds the error term, products in the clipping step are not bounded to int32.
- Heights, positions and times are reals, not float64; the square root is a parameter of which only its sign is used.
- Entity and packet ids do not wrap at 2^31; the generic `next_id` and counters are unbounded.
- Only the entity fields that the scene operations read or link are modelled: id, kind, parent, position, half size and mesh path; the others are copied along by the same row copies.
- Procedural terrain heights and script effects are parameters: a height function, and a list of scene edits per fixed step. Lua registries are not modelled.

Not modelled:

- Editor state that undo does not restore (dirty flag, blink, scroll, drag in progress), clipboard and file handling.
- HELLO, SCRIPT and ERROR packets: the decoder does not know them, and the encoder file has none.
- The client's snapshot loop, which returns at SCENE_END and drops the rest of that read; only the runtime loop's framing is modelled.
- Scene file load and save, terrain files, camera, picking, gizmos, meshes, names and materials.
- Asset registry, services, output log, garbage-collector accounting, crash traces and build scripts.

Weaker than the source on purpose:

- UndoRuns.StepExact: an operation is allowed only if its deletion gets a record; `UndoFull.UndoRightIff` says that exactly these sessions keep undo right.
- UndoRuns.UndoIsExact: likewise.
- UndoRuns.RedoIsExact: likewise, and the session must keep to `Disciplined`; `UndoRedo.RedoRightIff` is the exact condition for one state.
- CodeEditor.UndoLog.PushInsert: does not model what a byte merged outside the arena overwrites.
- CodeEditor.CodeEditor.InsertByte: likewise.
- Scene.Scene.BindTerrain: takes the procedural heights as a function.
- PlayProtocol.EncodeWelcome: does not model what a write before the buffer overwrites, nor the line that such an encoder leaves behind.
- PlayProtocol.EncodeSceneBegin: likewise.
- PlayProtocol.EncodeEntity: likewise.
- PlayProtocol.EncodeInput: likewise.
- PlayProtocol.EncodeXform: likewise.
- PlayProtocol.EncodeStop: likewise.
- PlayWireTheorems.LineRoundTrip: a stop reason is returned up to its first space or newline, as the decoder reads a single token; `StopIsWholeIff` says when that is all of it.

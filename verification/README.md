# Verified models of the timer, the two thread pools and the request parser

Four stateful components of the repository, modelled in Dafny and proved over all inputs, all
schedules and all runs.

| component | files | source |
|---|---|---|
| heap timer | `TimerHeap.dfy` (array algorithms on sequences), `TimerPaths.dfy` (where the sifts put each node), `HeapTimer.dfy` (the object) | `webserver_tac/code/timer/heaptimer.cpp` |
| elastic C pool | `TaskRing.dfy` (shared fields), `ElasticPool.dfy` (interleaved protocol), `PoolSections.dfy` (the critical sections of workers and threadPoolAdd), `ManagerRounds.dfy` (the manager), `PoolShutdown.dfy` and `ShutdownRuns.dfy` (threadPoolDestroy), `ThreadPool.dfy` (the memory) | `thread_pool_c/threadpool.c` |
| draining C++ pool | `DrainingPool.dfy`, `Sums.dfy` (weighted counts) | `webserver_tac/code/pool/threadpool.h` |
| request parser | `Lines.dfy` (line and field splitting), `FormDecoder.dfy`, `RequestParser.dfy` (state machine), `HttpRequest.dfy` (parser and buffer objects) | `webserver_tac/code/http/http_request.cpp` |

Each object that the source changes in place is a class whose methods are proved equal to a
function on values; the properties are lemmas about those functions. Concurrency is modelled as
steps: an event names the thread that moves, and a run is any sequence of enabled events.

## Where the code and its comments differ

* `siftup_` swaps while the parent is *smaller*, its comment says the opposite. The code is kept
  (`AsWritten`); what holds with the commented comparison is proved beside it (`AsDocumented`).
  As written, any move made by `siftup_` leaves no min-heap (`RisingBreaksHeap`), so insertion and
  removal keep the order exactly under the conditions of `InsertedAsWrittenIsHeapIff` and
  `RemovedAsWrittenIsHeapIff`. `siftup_` as written is the commented one in the opposite order, so
  `add` builds a max-heap and `tick` waits for the latest deadline of all (`TickWaitsForLatest`;
  `LaterTimerHidesEarlier` is an instance). `pop`, `tick` and `adjust` do not depend on the comparison.
* The form decoder's comment says that `%XX` becomes a decimal number; it never does
  (`EscapeNeverDecimal`), because digits keep their character code. The model computes what the code
  computes, with signed `char`; `EscapeWrites` says exactly what that is.
* The form decoder drops the last pair if its value is empty or its key was seen before.
  `FormRoundTripIff` gives the exact condition under which a printed form comes back.
* A percent sign without two following bytes makes the decoder leave its string. The model
  gives this case its own outcome (`Undefined`, `Fault`); `DecodeDefinedIff` says when it happens.
* A header line that is not blank but matches no header ends the headers all the same
  (`HeadersEndAt`), where the comment speaks of the blank line.
* In the elastic pool `shutdown` is written without the lock. `MemorySafe`, `ShutdownStopsRing` and
  `ShutdownStopsWaiting` show what this still guarantees. Tasks queued at that time are never run.
* `threadPoolDestroy` means to wake all workers. It need not: `FreesWorkersIff` and
  `FreesProducersIff` give the exact conditions, and there are three ways to fail them, each with a
  run from the start. A worker that read `shutdown` unset may begin to wait after the last signal
  (`ShutdownSignalLost`). A worker woken by a signal may retire and lower `liveNum`, which the
  signalling loop compares with anew each time, so that fewer signals are sent than workers wait
  (`RetirementOutruns`). Blocked producers are not signalled at all (`ProducerLeftBlocked`).

## Assumptions of the model

* Timer: times are unbounded integers in nanoseconds; each reading of the clock is an input, and
  readings need not increase. Callbacks do not call the timer.
* Elastic pool: a thread id is positive and never used twice; a signal wakes one of the waiting
  threads, if there is one, and waits may also end spuriously; a created thread's id is stored before
  the thread runs; threadPoolDestroy is called at most once, at any moment; tasks end.
* Elastic pool, threadExit: its search reads the slots one by one without the lock and is one step
  here. This loses nothing: the search looks for the caller's own id, which only the caller's slot
  holds (`StepKeepsSlots`) and only the caller clears, so it finds the same slot whatever the others
  do meanwhile, and the other threads see of it only the moment at which that slot becomes free.
* Draining pool: a `notify_one` wakes any one waiting worker, waits may end spuriously, tasks end.
  AddTask may even come after closing; `lateAdds` counts such calls.
* Parser: characters are bytes; the dot of the header expression does not match CR or LF; the
  user database is an arbitrary function of a name and a password, neither empty, and the kind of
  request.

## Model

| member | source | states |
|---|---|---|
| `TimerHeap.SwapKeepsEntries` | webserver_tac/code/timer/heaptimer.cpp:10-17 | a swap leaves the map from id to deadline and callback as it is |
| `TimerHeap.SunkLands` | webserver_tac/code/timer/heaptimer.cpp:35-55 | siftdown_ returns true exactly when the node ended below index; where the node is; nothing outside index..n moves |
| `TimerHeap.SunkRepairs` | webserver_tac/code/timer/heaptimer.cpp:33-55 | siftdown_ repairs a heap that is broken only below index |
| `TimerHeap.RaisedRepairs` | webserver_tac/code/timer/heaptimer.cpp:19-31 | with the comparison of its comment, siftup_ repairs a heap that is broken only above i |
| `TimerHeap.RisingBreaksHeap` | webserver_tac/code/timer/heaptimer.cpp:21-31 | as written, whenever siftup_ moves a node the result is no min-heap |
| `TimerHeap.InsertedEntries` | webserver_tac/code/timer/heaptimer.cpp:82-89 | adding a new id adds exactly that timer, with either comparison |
| `TimerHeap.InsertedAsDocumentedIsHeap` | webserver_tac/code/timer/heaptimer.cpp:19-31 | with the commented comparison, add keeps the min-heap |
| `TimerHeap.InsertedAsWrittenIsHeapIff` | webserver_tac/code/timer/heaptimer.cpp:82-89 | as written, add keeps the min-heap iff the heap was empty or the new deadline equals the parent slot's |
| `TimerHeap.RemovedEntries` | webserver_tac/code/timer/heaptimer.cpp:58-76 | del_ removes exactly the node at index, with either comparison |
| `TimerHeap.RemovedAsDocumentedIsHeap` | webserver_tac/code/timer/heaptimer.cpp:58-76 | with the commented comparison, del_ at any position keeps the min-heap |
| `TimerHeap.RemovedAsWrittenIsHeapIff` | webserver_tac/code/timer/heaptimer.cpp:58-76 | as written, del_ keeps the min-heap iff the node is last or root, or the moved node sinks, or it ties with the parent |
| `TimerHeap.PoppedIsHeap` | webserver_tac/code/timer/heaptimer.cpp:138-142 | pop keeps the min-heap as written and takes a least deadline |
| `TimerHeap.RescheduledIsHeapIff` | webserver_tac/code/timer/heaptimer.cpp:111-117 | adjust keeps the min-heap iff the new deadline is not before the parent's; always if it is not before the old one |
| `TimerHeap.RescheduledEntries` | webserver_tac/code/timer/heaptimer.cpp:111-117 | adjust changes exactly one deadline |
| `TimerHeap.AddedEntries` | webserver_tac/code/timer/heaptimer.cpp:78-96 | add is a plain map update, for new and for known ids |
| `TimerHeap.DueAfterTimeout` | webserver_tac/code/timer/heaptimer.cpp:78-117 | in any timer, a timer set by add or adjust is due at a reading of the clock iff more than timeout - 1 milliseconds have passed since the call, in nanoseconds |
| `TimerHeap.TickAfterTimeout` | webserver_tac/code/timer/heaptimer.cpp:78-135 | tick fires a single timer, added or set again, at exactly those readings |
| `TimerHeap.PopOrderSorts` | webserver_tac/code/timer/heaptimer.cpp:126-141 | popping a min-heap to the end yields every timer once, by deadline |
| `TimerHeap.DueIsUnderOneMs` | webserver_tac/code/timer/heaptimer.cpp:129-132 | the truncating comparison means: less than one whole millisecond is left |
| `TimerHeap.TakenAreDue` | webserver_tac/code/timer/heaptimer.cpp:126-135 | each node tick fires had less than one whole millisecond left at its own clock reading |
| `TimerHeap.TickStopsAt` | webserver_tac/code/timer/heaptimer.cpp:126-135 | tick stops only at a root with a whole millisecond left |
| `TimerHeap.TickOnHeap` | webserver_tac/code/timer/heaptimer.cpp:119-136 | on a min-heap tick fires in deadline order and leaves every node a whole millisecond at the last reading |
| `TimerHeap.TickSplitsTimers` | webserver_tac/code/timer/heaptimer.cpp:119-136 | tick splits the timers into those fired, each once, and those left |
| `TimerHeap.TickCompleteIff` | webserver_tac/code/timer/heaptimer.cpp:119-136 | tick misses no due timer at any moment iff popping would go by deadline |
| `TimerHeap.CallRefinesMap` | webserver_tac/code/timer/heaptimer.cpp:78-148 | every call of the interface acts on the timers as a plain map operation |
| `TimerHeap.RunRefinesMap` | webserver_tac/code/timer/heaptimer.cpp:78-148 | so does every run of calls |
| `TimerHeap.CallKeepsHeapIff` | webserver_tac/code/timer/heaptimer.cpp:78-148 | from a min-heap, a call as written ends in a min-heap iff its condition holds |
| `TimerHeap.RaisedMirrors` | webserver_tac/code/timer/heaptimer.cpp:19-31 | siftup_ as written is siftup_ as commented with the order of deadlines turned round |
| `TimerHeap.InsertedKeepsMaxHeap` | webserver_tac/code/timer/heaptimer.cpp:82-89 | as written, adding a new id keeps a max-heap |
| `TimerHeap.TickWaitsForLatest` | webserver_tac/code/timer/heaptimer.cpp:82-135 | after any adds of new ids, tick fires nothing iff some timer, the latest, is not due, however overdue the others are |
| `TimerHeap.LaterTimerHidesEarlier` | webserver_tac/code/timer/heaptimer.cpp:21-31 | its instance: two adds after which tick misses an overdue timer |
| `TimerPaths.SunkAlongPath` | webserver_tac/code/timer/heaptimer.cpp:35-55 | siftdown_ on any array, heap or not: the node goes down along the earlier children, the left one on a tie, while they are not later; the nodes passed move up by one; nothing else moves |
| `TimerPaths.RaisedAlongPath` | webserver_tac/code/timer/heaptimer.cpp:21-31 | siftup_ on any array: the node goes up while its parent is strictly earlier; the nodes passed move down by one; nothing else moves |
| `TimerPaths.InsertedAlongPath` | webserver_tac/code/timer/heaptimer.cpp:82-89 | where add of a new id puts every node |
| `TimerPaths.RescheduledAlongPath` | webserver_tac/code/timer/heaptimer.cpp:111-117 | where adjust puts every node |
| `TimerPaths.RemovedAlongPath` | webserver_tac/code/timer/heaptimer.cpp:58-76 | where del_ puts every node: the last one takes the slot and sinks if a child there is not later, otherwise it rises |
| `HeapTimers.IndexedIsDistinct` | webserver_tac/code/timer/heaptimer.h:75-78 | if ref_ and heap_ agree, ids are distinct and ref_ gives each id's place |
| `HeapTimers.HeapTimer.SwapNode` | webserver_tac/code/timer/heaptimer.cpp:10-17 | heap_ and ref_ stay in agreement |
| `HeapTimers.HeapTimer.SiftUp` | webserver_tac/code/timer/heaptimer.cpp:21-31 | the loop in place is the rising of the specification, with ref_ in agreement |
| `HeapTimers.HeapTimer.SiftDown` | webserver_tac/code/timer/heaptimer.cpp:35-55 | the loop in place is the sinking of the specification; the result tells whether the node moved |
| `HeapTimers.HeapTimer.Delete` | webserver_tac/code/timer/heaptimer.cpp:58-76 | the removal of the specification, with ref_ in agreement |
| `HeapTimers.HeapTimer.Add` | webserver_tac/code/timer/heaptimer.cpp:78-96 | the addition of the specification for new and for known ids |
| `HeapTimers.HeapTimer.DoWork` | webserver_tac/code/timer/heaptimer.cpp:98-109 | runs the callback of a known id once and removes it |
| `HeapTimers.HeapTimer.Reschedule` | webserver_tac/code/timer/heaptimer.cpp:111-117 | the rescheduling of the specification |
| `HeapTimers.HeapTimer.Tick` | webserver_tac/code/timer/heaptimer.cpp:119-136 | terminates; fires and removes exactly the leading due nodes of the pop order |
| `HeapTimers.HeapTimer.Pop` | webserver_tac/code/timer/heaptimer.cpp:138-142 | removes the root |
| `HeapTimers.HeapTimer.Clear` | webserver_tac/code/timer/heaptimer.cpp:144-148 | leaves nothing |
| `HeapTimers.TickPromise` | webserver_tac/code/timer/heaptimer.cpp:119-136 | what a caller of tick may rely on, in milliseconds, with and without the min-heap |
| `TaskRing.PutAppends` | thread_pool_c/threadpool.c:159-163 | writing at queueRear appends to the queue and stays in bounds |
| `TaskRing.TakeRemovesOldest` | thread_pool_c/threadpool.c:222-229 | reading at queueFront takes the oldest task and stays in bounds |
| `TaskRing.GrowCreates` | thread_pool_c/threadpool.c:277-287 | undisturbed, the manager's loop creates as many threads as NUM, the maximum and the free slots allow |
| `TaskRing.GrowFills` | thread_pool_c/threadpool.c:277-287 | undisturbed, it puts distinct new ids into free slots only and keeps the slots exact |
| `TaskRing.RetireChecksCount` | thread_pool_c/threadpool.c:203-212 | k checks use up k requests to retire, also when nobody may retire, and lower liveNum by as many as there were, down to minNum |
| `TaskRing.RetiresIffLowered` | thread_pool_c/threadpool.c:203-212 | a worker exits iff its own check lowered liveNum |
| `TaskRing.VacateSlot` | thread_pool_c/threadpool.c:314-323 | threadExit frees exactly the caller's slot |
| `TaskRing.FillSlot` | thread_pool_c/threadpool.c:281-286 | a created thread takes a free slot |
| `ElasticPool.InitInv` | thread_pool_c/threadpool.c:41-91 | the new pool satisfies the invariants |
| `ElasticPool.StepKeepsLock` | thread_pool_c/threadpool.c:145-252 | mutexPool is held by exactly the thread inside a critical section |
| `ElasticPool.StepKeepsQueue` | thread_pool_c/threadpool.c:145-233 | every step keeps the ring a queue of the tasks accepted and not yet taken |
| `ElasticPool.StepKeepsTests` | thread_pool_c/threadpool.c:149-220 | what a thread found in its tests stays true although shutdown is set without the lock |
| `ElasticPool.StepKeepsCounts` | thread_pool_c/threadpool.c:202-290 | every step keeps liveNum, busyNum and exitNum equal to what they count and in their ranges |
| `ElasticPool.StepKeepsSlots` | thread_pool_c/threadpool.c:275-324 | every step keeps the slots holding the ids of the threads present, each once |
| `ElasticPool.StepKeepsTickets` | thread_pool_c/threadpool.c:222-249 | every step keeps each taken task on at most one worker or finished once |
| `ElasticPool.StepKeepsDestroy` | thread_pool_c/threadpool.c:105-117 | threadPoolDestroy signals only after shutdown is set and the manager has ended |
| `ElasticPool.RunKeepsInv` | thread_pool_c/threadpool.c:105-325 | all of this in every state of every run |
| `ElasticPool.WorkerCensus` | thread_pool_c/threadpool.c:202-213 | minNum <= liveNum <= maxNum; occupied slots + workers gone on shutdown = liveNum + workers about to retire; none gone on shutdown before it |
| `ElasticPool.BusyCensus` | thread_pool_c/threadpool.c:238-249 | busyNum is the number of workers between its updates and at most liveNum |
| `ElasticPool.RingRefinesQueue` | thread_pool_c/threadpool.c:159-163 | bounds, rear = (front + size) mod capacity, and contents, in every reachable state |
| `ElasticPool.MemorySafe` | thread_pool_c/threadpool.c:149-229 | a worker reads a slot only when queueSize > 0; no access to ring or slots is out of bounds |
| `ElasticPool.EachTaskInOnePlace` | thread_pool_c/threadpool.c:222-249 | each accepted task is in exactly one of queue, one worker, finished, as it was accepted |
| `ElasticPool.TakenInOrder` | thread_pool_c/threadpool.c:222-229 | tasks are taken in the order of acceptance, by one worker at a time |
| `PoolSections.WaitsOnlyInVain` | thread_pool_c/threadpool.c:149-200 | in every run a worker begins to wait only at an empty queue, a producer only at a full one |
| `PoolSections.LookTakes` | thread_pool_c/threadpool.c:193-233 | a worker that looks at a queue with tasks, shutdown unset, takes the oldest and does not wait |
| `PoolSections.LookTakesNothing` | thread_pool_c/threadpool.c:196-220 | at an empty queue it waits and gives up the lock; with shutdown set it leaves without a task |
| `PoolSections.AddAccepts` | thread_pool_c/threadpool.c:145-168 | threadPoolAdd with room and shutdown unset appends its task |
| `PoolSections.AddAcceptsNothing` | thread_pool_c/threadpool.c:149-158 | at a full ring it blocks and gives up the lock; with shutdown set it returns and has added nothing |
| `ManagerRounds.StepKeepsSample` | thread_pool_c/threadpool.c:259-305 | the manager acts on its own last readings of queueSize, liveNum and busyNum |
| `ManagerRounds.ManagerActsOnSample` | thread_pool_c/threadpool.c:259-305 | in every run a thread is created only after more tasks than threads and fewer than maxNum threads were read, and exitNum is raised only after fewer than half of the threads busy and more than minNum were read |
| `ManagerRounds.HolderAlone` | thread_pool_c/threadpool.c:145-298 | while mutexPool is held no other thread changes what it guards, and the manager does not read it |
| `ManagerRounds.UndisturbedRound` | thread_pool_c/threadpool.c:259-305 | an undisturbed round creates threads iff tasks > threads < maxNum: two, or what maxNum and the free slots allow; it sets exitNum to 2 and wakes two sleepers iff twice busyNum < liveNum > minNum; it changes nothing else |
| `ManagerRounds.RoundFromIdle` | thread_pool_c/threadpool.c:259-305 | such a round exists from every reachable state with the manager at the head of its loop and the lock free |
| `PoolShutdown.ShutdownStopsRing` | thread_pool_c/threadpool.c:105-163 | after shutdown only a thread already past its test touches the ring, once |
| `PoolShutdown.AfterShutdown` | thread_pool_c/threadpool.c:105-163 | from shutdown on at most one task in all is still put or taken |
| `PoolShutdown.ShutdownStopsWaiting` | thread_pool_c/threadpool.c:110-200 | from shutdown on at most one thread in all still begins to wait: the lock holder that had read shutdown unset |
| `PoolShutdown.ShutdownStepCosts` | thread_pool_c/threadpool.c:105-325 | after shutdown every step of any thread lowers a measure: of workers, producers, the manager and its new threads, and the destroyer, whose loop follows liveNum |
| `PoolShutdown.ShutdownRunEnds` | thread_pool_c/threadpool.c:105-325 | after shutdown every run is at most as long as that measure |
| `PoolShutdown.ShutdownLeavesWaiters` | thread_pool_c/threadpool.c:105-325 | where no thread moves by itself any more, the lock is free, the manager and the signalling loop are over, and every worker and called producer is out or in pthread_cond_wait |
| `PoolShutdown.StrandingStep` | thread_pool_c/threadpool.c:149-233 | after shutdown no step adds to the producers that will stay blocked, and no thread's own step saves one |
| `PoolShutdown.FreesProducersIff` | thread_pool_c/threadpool.c:105-233 | from shutdown on, every run ends with no producer blocked iff none is about to block and at most as many are blocked as the take under way will signal |
| `PoolShutdown.FreeingStep` | thread_pool_c/threadpool.c:112-252 | during the signalling loop no step, spurious wakeups included, begins to strand a worker |
| `PoolShutdown.StrandingMove` | thread_pool_c/threadpool.c:112-252 | while a worker can be stranded, some thread has a step of its own that keeps it so |
| `PoolShutdown.FreesWorkersIff` | thread_pool_c/threadpool.c:112-252 | from the signalling loop on, every run ends with all workers out iff none is between test and wait and signals and retirements cannot exhaust the loop with a worker asleep |
| `PoolShutdown.SignalsReachAll` | thread_pool_c/threadpool.c:114-213 | when the signals begin and nobody is between test and wait: all workers get out if none may retire; if all are asleep, only then or if there is just one |
| `ShutdownRuns.ShutdownSignalLost` | thread_pool_c/threadpool.c:105-200 | a run from the start to a moment from which the only worker can be left asleep: it has read shutdown unset |
| `ShutdownRuns.ProducerLeftBlocked` | thread_pool_c/threadpool.c:105-168 | a run from the start to a moment from which a producer can be left blocked |
| `ShutdownRuns.RetirementOutruns` | thread_pool_c/threadpool.c:105-308 | a run from the start to the first signal, from where two workers asleep need not both get out, as one may retire |
| `ThreadPools.ThreadPool.constructor` | thread_pool_c/threadpool.c:53-89 | the fields of a new pool |
| `ThreadPools.ThreadPool.Add` | thread_pool_c/threadpool.c:159-163 | the put of the specification, in place |
| `ThreadPools.ThreadPool.TakeTask` | thread_pool_c/threadpool.c:222-229 | the take of the specification, in place, and the task read |
| `ThreadPools.ThreadPool.CheckRetire` | thread_pool_c/threadpool.c:203-212 | the retire check of the specification and its verdict |
| `ThreadPools.ThreadPool.ThreadExit` | thread_pool_c/threadpool.c:310-323 | the search clears the first slot with the caller's id |
| `ThreadPools.ThreadPool.GrowThreads` | thread_pool_c/threadpool.c:277-287 | the growing loop in place and the exact number of threads it creates |
| `DrainingPool.InitInv` | webserver_tac/code/pool/threadpool.h:14-39 | the new pool satisfies the invariants |
| `DrainingPool.StepKeepsLock` | webserver_tac/code/pool/threadpool.h:20-62 | the mutex is held by exactly the thread inside a critical section |
| `DrainingPool.StepKeepsTickets` | webserver_tac/code/pool/threadpool.h:23-30 | every step keeps each taken task on one worker or done once |
| `DrainingPool.StepKeepsWake` | webserver_tac/code/pool/threadpool.h:23-63 | while a worker sleeps, queued tasks <= notifications owed + workers on the way to the lock |
| `DrainingPool.StepKeepsClose` | webserver_tac/code/pool/threadpool.h:31-54 | workers leave only after closing, and none sleeps after the closing notification |
| `DrainingPool.RunKeepsInv` | webserver_tac/code/pool/threadpool.h:14-64 | all of this in every state of every run |
| `DrainingPool.NoLostWakeup` | webserver_tac/code/pool/threadpool.h:19-36 | with tasks queued and a worker asleep, a notification is owed or a worker is on its way; asleep and closed, notify_all is owed |
| `DrainingPool.TasksRunUnlocked` | webserver_tac/code/pool/threadpool.h:25-29 | one lock holder; none runs a task |
| `DrainingPool.WakesExactly` | webserver_tac/code/pool/threadpool.h:36-63 | notify_one wakes exactly one worker if any waits, notify_all wakes all, no other step wakes any |
| `DrainingPool.TakenInOrder` | webserver_tac/code/pool/threadpool.h:25-26 | tasks leave in the order of AddTask |
| `DrainingPool.EachTaskInOnePlace` | webserver_tac/code/pool/threadpool.h:57-64 | each added task is in exactly one of queue, one worker, done |
| `DrainingPool.AllGoneMeansAllDone` | webserver_tac/code/pool/threadpool.h:23-34 | when all workers have exited, the pool is closed, nothing but late tasks is queued, and exactly the tasks taken have run, once each: all added before the closing |
| `DrainingPool.StuckMeansIdle` | webserver_tac/code/pool/threadpool.h:19-64 | no deadlock: a pool that cannot move is idle with an empty queue, or all workers have exited; after closing they all have |
| `DrainingPool.ClosedStepCosts` | webserver_tac/code/pool/threadpool.h:45-55 | once closed, every step of any thread lowers a measure, and no worker enters wait |
| `DrainingPool.ClosedRunEnds` | webserver_tac/code/pool/threadpool.h:45-55 | once closed, every run is at most as long as that measure |
| `DrainingPool.ClosingDrains` | webserver_tac/code/pool/threadpool.h:45-55 | a closed pool run to its end has run every task added before the closing exactly once and kept no worker, even if AddTask was called after it |
| `DrainingPool.PushedIsTakenLast` | webserver_tac/code/pool/threadpool.h:23-62 | turns at a pool after AddTask take what they took before and then the new task |
| `DrainingPool.ClosedOffIsDrained` | webserver_tac/code/pool/threadpool.h:23-54 | after closing, turns take the same tasks in the same order, and then leave instead of waiting |
| `DrainingPool.SharedPool.AddTask` | webserver_tac/code/pool/threadpool.h:59-62 | the adder's step of the protocol in place |
| `DrainingPool.SharedPool.WorkerTurn` | webserver_tac/code/pool/threadpool.h:23-34 | a worker's look at the pool in place: take the oldest task, leave, or wait |
| `DrainingPool.SharedPool.Close` | webserver_tac/code/pool/threadpool.h:49-52 | the closer's step of the protocol in place |
| `Lines.LineEnd` | webserver_tac/code/http/http_request.cpp:40-41 | the first CRLF or the end |
| `Lines.LineEndInBytes` | webserver_tac/code/http/http_request.cpp:40-41 | in bytes: the first carriage return followed by a line feed, or the end |
| `Lines.LineComesBack` | webserver_tac/code/http/http_request.cpp:40-67 | a line without CRLF is found again in front of its CRLF |
| `Lines.RequestLineSplits` | webserver_tac/code/http/http_request.cpp:95-101 | the split succeeds with three fields iff the line is those fields in the shape of the expression |
| `Lines.HeaderSplits` | webserver_tac/code/http/http_request.cpp:112-116 | the same for a header, with the optional blank taken greedily |
| `FormDecoder.InPlaceIsReading` | webserver_tac/code/http/http_request.cpp:193-228 | the indexed decoder that rewrites its body refines an index-free reader of a stream |
| `FormDecoder.DecodeDefinedIff` | webserver_tac/code/http/http_request.cpp:205-211 | the decoder stays in its string iff no percent sign it reaches lacks two bytes |
| `FormDecoder.EscapeNeverDecimal` | webserver_tac/code/http/http_request.cpp:141-148 | for no pair of hex digits is a decimal number written |
| `FormDecoder.EscapeWrites` | webserver_tac/code/http/http_request.cpp:141-211 | what an escape writes for any two bytes, and that it touches no others |
| `FormDecoder.LettersWrite` | webserver_tac/code/http/http_request.cpp:141-211 | for two hex letters: the tens, 17 to 25, and the ones of the number, counted from the character 0 |
| `FormDecoder.DecodeRewrites` | webserver_tac/code/http/http_request.cpp:181-229 | the body left behind: plus signs turned into blanks and escapes rewritten, nothing else changed |
| `FormDecoder.FieldsDecode` | webserver_tac/code/http/http_request.cpp:181-229 | what any printed form decodes to: escapes, blanks, repeated keys, earlier pairs and the empty form included |
| `FormDecoder.FormDecodes` | webserver_tac/code/http/http_request.cpp:181-229 | its instance for pairs of plain text |
| `FormDecoder.FormRoundTripIff` | webserver_tac/code/http/http_request.cpp:222-228 | it decodes to its pairs iff the last pair is new and not empty, or changes nothing |
| `FormDecoder.DistinctFormRoundTrip` | webserver_tac/code/http/http_request.cpp:181-229 | with distinct keys onto no pairs: iff the last value is not empty |
| `RequestParser.ParseConserves` | webserver_tac/code/http/http_request.cpp:33-68 | the state only moves forward, the bytes left are an end of the bytes given, parsing stops early only in FINISH |
| `RequestParser.ParseRefusesIff` | webserver_tac/code/http/http_request.cpp:29-48 | parse returns false iff the buffer is empty or the first line is malformed, and then changes nothing |
| `RequestParser.HeaderIff` | webserver_tac/code/http/http_request.cpp:112-114 | a line is a header iff it has a colon and no line break after the first one |
| `RequestParser.HeadersEndAt` | webserver_tac/code/http/http_request.cpp:109-128 | printed headers are read back and end at the first line that is no header, blank or not, which leaves no trace |
| `RequestParser.HeadersParse` | webserver_tac/code/http/http_request.cpp:109-128 | its instance for the blank line |
| `RequestParser.LastLineNeedsNoEnd` | webserver_tac/code/http/http_request.cpp:60-65 | a CRLF missing at the end of the bytes makes no difference |
| `RequestParser.HeadParses` | webserver_tac/code/http/http_request.cpp:26-71 | any printed head is read back |
| `RequestParser.RequestRoundTrip` | webserver_tac/code/http/http_request.cpp:26-71 | any printed request but a POST comes back, ends in FINISH and leaves the rest unread |
| `RequestParser.RedirectedIs` | webserver_tac/code/http/http_request.cpp:157-237 | on the two user pages the welcome page iff name and password are not empty and the database consents to this kind of request, else the error page; other pages stay |
| `RequestParser.PostRoundTrip` | webserver_tac/code/http/http_request.cpp:151-237 | a printed form POST empties the buffer, records the pairs, leaves the body rewritten, and redirects on the two user pages only, by name, password and database |
| `RequestParser.OtherPostRoundTrip` | webserver_tac/code/http/http_request.cpp:130-153 | a printed POST of any other content: the body ends at its first CRLF, the rest stays unread |
| `RequestParser.PageOfSettles` | webserver_tac/code/http/http_request.cpp:9-90 | exactly the root and the six default pages change, to .html pages, and the mapping is settled after one use |
| `RequestParser.ParseResumes` | webserver_tac/code/http/http_request.cpp:33-68 | parsing may be cut at any end of line |
| `RequestParser.CutRequestLine` | webserver_tac/code/http/http_request.cpp:92-107 | the first c characters of a request line are a request line themselves iff they reach the end of HTTP/ |
| `RequestParser.CutRefusedIff` | webserver_tac/code/http/http_request.cpp:26-71 | of any printed request cut after c bytes, at any c, parse refuses exactly those cut before the end of HTTP/ |
| `RequestParser.CutInsideLine` | webserver_tac/code/http/http_request.cpp:44-48 | its instance: a whole request is accepted, its first bytes are refused |
| `HttpRequests.Buffer.constructor` | webserver_tac/code/buffer/buffer.cpp:81-87 | a new buffer to which bytes were appended: exactly they are unread |
| `HttpRequests.Buffer.Retrieve` | webserver_tac/code/buffer/buffer.cpp:33-37 | drops the first unread bytes |
| `HttpRequests.Buffer.RetrieveUntil` | webserver_tac/code/buffer/buffer.cpp:40-45 | drops the unread bytes up to a place |
| `HttpRequests.HttpRequest.Init` | webserver_tac/code/http/http_request.cpp:18-24 | the empty request |
| `HttpRequests.HttpRequest.Parse` | webserver_tac/code/http/http_request.cpp:26-71 | the loop in place is the state machine of the specification; RetrieveUntil stays in bounds |
| `HttpRequests.HttpRequest.ParseOne` | webserver_tac/code/http/http_request.cpp:42-59 | the switch on the state |
| `HttpRequests.HttpRequest.ParsePath` | webserver_tac/code/http/http_request.cpp:73-90 | the mapping of default pages |
| `HttpRequests.HttpRequest.ParseRequestLine` | webserver_tac/code/http/http_request.cpp:92-107 | sets the three fields, or changes nothing |
| `HttpRequests.HttpRequest.ParseHeader` | webserver_tac/code/http/http_request.cpp:109-128 | records a header, or ends the headers |
| `HttpRequests.HttpRequest.ParseBody` | webserver_tac/code/http/http_request.cpp:130-139 | takes the body of a POST and finishes |
| `HttpRequests.HttpRequest.ParsePost` | webserver_tac/code/http/http_request.cpp:151-177 | decodes a form and redirects on the user pages |
| `HttpRequests.HttpRequest.ParseFromUrlencoded` | webserver_tac/code/http/http_request.cpp:181-229 | the loop in place is the decoder of the specification |

## Left out

- Sockets, epoll, readv and writev, mmap, MySQL, logging, responses and the pages: input and output or foreign libraries.
- The buffer beyond its unread bytes, Retrieve and RetrieveUntil: growing and copying would only add easy members.
- The other thread pools of the repository: variants of the two modelled here.
- Progress of the elastic pool before shutdown: a retiring worker can take the signal meant for a task, so only safety is claimed there.
- What threadPoolDestroy does after its signals (waiting two seconds and freeing, whoever still waits), failing allocations, failing thread creation, and interleavings inside threadPoolCreate.
- GetNextTick: its clamp compares an unsigned number with zero and never acts; the rest is tick and one subtraction.
- Machine integers of the timer, the counters and the ring: far from overflow in use.
- `ElasticPool.InitInv`: starts with min <= max only; with min > max threadPoolCreate stores thread ids beyond the end of its array (lines 54 and 86-88), and no behaviour of it is defined after that.
- `ThreadPools.ThreadPool.constructor`: min <= max for the same reason.
- `ThreadPools.ThreadPool.GrowThreads`: slots cleared by exiting threads during the loop are covered by the protocol in `ElasticPool`, not here.
- `TaskRing.GrowCreates`: slots cleared by exiting threads during the loop are covered by the protocol in `ElasticPool`, not here.
- UserVerify's queries, made for a name and a password that are not empty: an arbitrary function.

# Verified model of lxcHttpServer

A small epoll server: one thread dispatches events, a pool of workers serves connections, a timer
closes idle keep-alive connections, an incremental reader parses requests, a logger writes in the
background, and a second, elastic thread pool lives beside it. This project models these parts in
Dafny and proves what holds of them over every input, every run and every interleaving.

`dafny verify dfyconfig.toml` checks everything.

## How the program is modelled

Where the program updates an object in place there is a class (`Timer`, `EventLoop`, `AsyncLoger`,
`HttpData`, `TaskQueue`, `ElasticThreads`) whose methods have the program's loops and are proved to
compute functions on values (`ConnectionTimer`, `HttpServer`, `LogSpec`, `HttpSpec`, `ElasticPool`).
Interleavings are transition systems over those functions, one step per critical section, and the
theorems are about all their runs.

Several statements are not what they are evidently for (`=` for `==`, a pop at the wrong end, a
missing guard). These are not silently repaired. Each is a parameter, and the theorem about it says
exactly which variant has the property, with a run or an input that shows the other failing:

- `Reading` (`AsWritten`, `AsMeant`): `if(end = mid)` (src/HttpData.cpp:146), `if(i = url.size() || ...)`
  (src/HttpData.cpp:127), the header separator (src/HttpData.cpp:96), the body loop without a first
  refill (src/HttpData.cpp:107), `back()` with a front `pop()` (src/AsyncLoger.cpp:105-106), and the
  manager's loop condition (thread_pool/myThreadPool.cpp:171).
- `Build` in `HttpServer`: EPOLL_CTL_ADD or MOD to re-arm (src/utils.cpp:127-134), guards for `end()`
  and for an empty list (src/Timer.cpp:77, 103, 124), the listening descriptor that falls through to
  the client branch (src/httpserver.cpp:168-179), alarms dispatched among client events
  (src/httpserver.cpp:166-195), closing without removing the timer entry (src/httpserver.cpp:96), and
  `SocketClosed`, which is not a `std::exception` (include/Error.h:5, src/httpserver.cpp:99).
  `AS_WRITTEN` is the program as it stands, but for what is taken as meant below.
- `locked` in `WorkQueue`: the server's pool appends under the mutex of the condition
  (include/ThreadPool.h:33-41), the elastic pool does not (thread_pool/myThreadPool.cpp:94-96).

Undefined behaviour is a value (`Undefined`, `Overrun`, `Broken`, `Crashed`), never excluded by a
precondition; only the transition system of the elastic pool starts with its bounds in order, since
construction with others already overruns the id array (`StartThreads`).

What the model shows about the program as written:

- A batch with an alarm before a client event lets two workers serve one connection, against
  README.md:27 of the repository (`TwoWorkersOneConnection`). That order is the only cause
  (`ExclusiveIff`), and a run without such a batch is safe (`OrderedBatchesAreSafe`); a run is safe
  exactly if no alarm closes a connection whose event is still to be dispatched (`SafeRunIff`).
- A worker that is handed the listening descriptor closes it, and nothing is accepted ever after
  (`ListenServedIff`, `ClosedListenAcceptsNothing`).
- A silent return, or a refusal by the full timer, loses an open connection, and nothing else does
  (`NothingLostIff`).
- An error on the second request of a kept connection erases `end()` (`SecondRequestFails`); a peer
  that closes ends the process. `StepCrashesIff` lists the causes, and a run crashes exactly if it
  meets one (`RunCrashesIff`).
- A kept connection is never served more than twice, because ADD does not re-arm, unless such a
  batch intervenes; then the program can serve it a third time (`OrderedBatchesAreSafe`,
  `ServedAtMostTwiceIff`, `ServedThrice`).
- Two full log buffers waiting at once lose the older one and crash the back end
  (`WrittenRunRefinesLogIff`, `WrittenRunCrashes`). Five long lines before the back end wakes lose
  the fifth and every later line (`FiveLinesStarve`), and exactly the calls that find no room lose
  theirs (`AllAcceptedIff`).
- Parsed parameter values are always empty (`ParamsRoundTripIff`), and every header without a '='
  overruns its line (`HeaderAsWrittenIff`). A request is recovered only if it is a GET without a
  query whose lines fit and whose headers are all of no interest and hold a '=' (`RequestAsWrittenIff`).
- Even as meant, a request line or header of more than 254 characters overruns the line buffer, and
  the reader cannot finish a POST with an empty body or without its length (`RequestRecoveredIff`,
  `LongLinesOverrun`, `UnrecoverablePosts`). A query or body whose last part has no '=' runs off its
  text (`SplitUndefinedIff`, `PairsDefinedIff`).
- As written a POST body is read from uninitialised memory exactly when a chunk begins with it: the
  same request succeeds in one chunk and fails in two (`SameRequestCutInTwo`).
- A CGI program is refused to a request without parameters, and its opening test keeps both processes
  off the null table (`CgiRunsIff`, `ChildRunsIff`). As written every rendered request that is read is
  refused (`RefusedAsWritten`); a POST that spells its length with '=' does reach a child, which is
  told no value (`WrittenPostReachesChild`).
- No elastic pool ever changes its size before a shutdown (`ElasticIff`).

Two defects are taken as meant, because nothing is left to model otherwise: `serverSocketfd = -1`
(src/httpserver.cpp:115) always throws, and the stray `;` (src/httpserver.cpp:171) leaves every
accepted client unserved. The `Buffer` constructor is taken to set its fields (src/AsyncLoger.cpp:10).

The listening descriptor is no connection: where a build also queues it as a client, it may be held by
several workers at once, and the theorems about connections hold of every other descriptor.

Characters are Dafny `char`s, of which bytes are a special case. `recv` is a sequence of non-empty
chunks of at most 1024 characters; its end stands for the peer closing and for an error. Time is in
whole seconds, as compared by the program; the clock does not go back. The 15 stamp characters of a
log line are a parameter, and writes to the log file are complete. The value `m_keepConnection` has
before the program sets it is a parameter. Hash-map iteration order is a parameter.

## Model

| member | source | states |
|---|---|---|
| Timer.Timer.constructor | include/Timer.h:55-57 | a new timer has no entry |
| Timer.Timer.AddFd | src/Timer.cpp:24-68 | the in-place insertion or refresh computes `AddFd` on the old state, including the epoll call and the refusal when full |
| Timer.Timer.ForbidenFd | src/Timer.cpp:119-138 | the in-place removal from the list computes `ForbidenFd`, or reports undefined behaviour |
| Timer.Timer.DeleteFd | src/Timer.cpp:98-117 | the in-place removal computes `DeleteFd`, or reports undefined behaviour |
| Timer.Timer.DeleteExpiredFd | src/Timer.cpp:70-96 | the front-popping loop computes the recursive specification for any list, and terminates |
| ConnectionTimer.AddFdKeepsValidIff | src/Timer.cpp:27-67 | list and iterator map stay in bijection after adding iff the call refuses or the old node was already out of the list |
| ConnectionTimer.AddFdKeepsSorted | src/Timer.cpp:10-15 | with one timeout and a clock that does not go back, insertion at the end keeps the list ordered by expiry |
| ConnectionTimer.AddFdRefines | src/Timer.cpp:24-68 | seen as a map, adding sets the entry to now plus the timeout, or changes nothing when refused |
| ConnectionTimer.ForbidenFdRefines | src/Timer.cpp:119-135 | undefined iff unguarded and the entry is already forbidden; otherwise keeps the structure and marks the entry forbidden |
| ConnectionTimer.DeleteFdRefines | src/Timer.cpp:98-106 | undefined iff unguarded and the entry is forbidden; otherwise keeps the structure and removes exactly that entry |
| ConnectionTimer.RemovalKeepsSorted | src/Timer.cpp:103-124 | removal from the middle keeps the order by expiry |
| ConnectionTimer.ExpiryIsExact | src/Timer.cpp:77-95 | the front-only loop removes and closes exactly the expired connections and keeps the others in order |
| ConnectionTimer.ExpiryByDeadline | src/Timer.cpp:77-95 | a node stays listed, and its connection open, iff its deadline is not before now |
| ConnectionTimer.ExpiryDefinedIff | src/Timer.cpp:77 | the loop runs off the list iff it is unguarded, some entry is forbidden and no listed connection is unexpired |
| ConnectionTimer.ExpiryCloses | src/Timer.cpp:77-95 | even when the counter has lost track of the list, the loop closes exactly the expired nodes it gets to and keeps the rest of the list as it was |
| ConnectionTimer.GoneIsExpired | src/Timer.cpp:77 | with the guard, or while the counter agrees with the list, these are all the expired nodes |
| ConnectionTimer.ListLengthIsLiveCount | include/Timer.h:35-46 | the list holds one node per entry that is not forbidden |
| TimerBook.OpRefines | src/Timer.cpp:24-138 | each of the four operations acts on the fd-to-deadline map as its specification does and keeps all invariants |
| TimerBook.OpDefinedIff | src/Timer.cpp:77-124 | an operation is defined iff it is harmless on the fd-to-deadline map |
| TimerBook.TimerRefinesBook | src/Timer.cpp:24-138 | over any disciplined sequence of operations, guarded or not, the list and iterator map refine a plain map from fd to deadline or forbidden, and the sequence stays defined iff each operation is harmless on that map |
| TimerBook.GuardedRunIsDefined | src/Timer.cpp:70-138 | with the guards no disciplined sequence of operations is undefined |
| ServerLoop.EventLoop.constructor | src/httpserver.cpp:145-160 | the server starts in the initial state of the protocol |
| ServerLoop.EventLoop.DispatchClient | src/httpserver.cpp:178-179 | forbids the descriptor and queues it, or reports undefined behaviour |
| ServerLoop.EventLoop.AcceptAll | src/httpserver.cpp:170-174 | the accept loop opens and queues every accepted connection in order |
| ServerLoop.EventLoop.Dispatch | src/httpserver.cpp:166-195 | one round of the batch loop makes exactly the protocol's dispatch step |
| ServerLoop.EventLoop.Take | src/ThreadPool.cpp:37-38 | a worker takes the front of the work list |
| ServerLoop.EventLoop.Finish | src/httpserver.cpp:57-104 | every way the worker function can end makes exactly the protocol's finish step |
| HttpServer.AlarmKeepsInvIff | src/httpserver.cpp:182-193 | handling an alarm keeps the ownership invariant iff no client event left in the batch is about a connection that it closes |
| HttpServer.ClientKeepsInv | src/httpserver.cpp:176-179 | dispatching the event of a connection is always defined and moves it from the timer to the end of the queue |
| HttpServer.ListenKeepsInv | src/httpserver.cpp:168-179 | accepting keeps the invariant although new connections are queued without being registered, with or without the fall-through |
| HttpServer.FinishKeepsInv | src/httpserver.cpp:90-103 | each ending of a worker that does not crash keeps the invariant |
| HttpServer.NextKeepsInvIff | src/httpserver.cpp:163-196 | a step of any build keeps the invariant iff it is no alarm that closes a connection with an event left in the batch |
| HttpServer.NextKeepsInv | src/httpserver.cpp:163-196 | every step keeps the invariant in the builds that order a batch |
| HttpServer.ReachedStatesAreSafe | src/httpserver.cpp:57-196 | in those builds every reachable state has each connection in at most one place, and only open ones queued or served |
| ConnectionRuns.TwoWorkersOneConnection | src/httpserver.cpp:165-190 | a run of any build with unordered batches in which two workers hold one open connection |
| ConnectionRuns.ListenQueuedTwice | src/httpserver.cpp:168-179 | a run in which the listening descriptor is queued twice |
| ConnectionRuns.ListenServedIff | src/httpserver.cpp:168-179 | the listening descriptor is ever queued as a client, and can ever be closed, iff it falls through |
| ConnectionRuns.ClosedListenAcceptsNothing | src/httpserver.cpp:171 | once it is closed, no run opens another connection |
| ConnectionRuns.ExclusiveIff | README.md:27 | no two workers have one connection in any reachable state, and each connection is in one place at a time, iff alarms are dispatched last in a batch |
| ConnectionRuns.SafeRunIff | src/httpserver.cpp:165-195 | in a single run of any build every state is safe iff no alarm closes a connection whose event is left in the batch |
| ConnectionRuns.OrderedBatchesAreSafe | src/httpserver.cpp:165-195 | every run of every build, the program as written included, whose batches have no alarm before a client event is safe, and with ADD serves no connection more than twice |
| ConnectionRuns.ExpirySparesServed | src/Timer.cpp:77-95 | expiry closes only expired connections and none that is queued or being served; it closes all expired ones if guarded or if the listening descriptor is not served |
| ConnectionRuns.NothingLostIff | src/httpserver.cpp:66-92 | in a safe run every open connection stays listed, queued or with a worker iff no worker returns silently and the timer refuses none |
| ConnectionRuns.ServedInOrder | src/httpserver.cpp:171-179 | in every run what is queued is what workers take, one for each take, in order, followed by the queue: accepted clients in the order of acceptance, the listening descriptor after them if it falls through, and the clients with an event |
| ConnectionRuns.EventsInOrder | src/httpserver.cpp:163-166 | every reported event is dispatched once and in the order reported |
| ConnectionRuns.TimePasses | src/Timer.cpp:77-80 | the time that deadlines are compared with is moved by the clock alone |
| ConnectionRuns.CrashFreeIff | src/httpserver.cpp:99-103 | no step of the protocol is undefined or ends in an uncaught exception iff the timer is guarded and `SocketClosed` is caught; what happens inside the parser and the CGI code is stated with them |
| ConnectionRuns.StepCrashesIff | src/httpserver.cpp:99-103 | in a consistent state a step of any build crashes iff the peer closed and nobody catches that, an entry that is already forbidden is removed unguarded, or an unguarded alarm finds every listed node expired and the counter above the list |
| ConnectionRuns.RunCrashesIff | src/httpserver.cpp:57-196 | a run of any build crashes iff one of its steps has such a cause |
| ConnectionRuns.SecondRequestFails | src/Timer.cpp:103 | a run of any unguarded build in which the second request of a kept connection fails and erases `end()` |
| ConnectionRuns.AsWrittenFails | src/httpserver.cpp:163-196 | the program as written has a run with two workers on one connection, a run that crashes and a run that serves a connection three times |
| ConnectionRuns.LeavesStaleEntry | src/httpserver.cpp:94-97 | a run that closes a kept connection and leaves its entry in the timer |
| ConnectionRuns.KeptAfterClose | src/httpserver.cpp:90-97 | with unordered batches, one worker closes a connection and another then keeps it, whatever closing removes |
| ConnectionRuns.NoStaleEntryIff | src/httpserver.cpp:94-97 | every timer entry of a connection belongs to an open one in all reachable states iff alarms come last and closing removes the entry |
| ConnectionRuns.ResponsiveIff | src/utils.cpp:127-135 | every listed connection can report its next request in all reachable states iff alarms come last, re-arming uses MOD and closing removes the entry |
| ConnectionRuns.ServedThrice | src/utils.cpp:128-135 | a run of any build with unordered batches in which an open connection is taken three times |
| ConnectionRuns.ServedAtMostTwiceIff | src/utils.cpp:128-135 | no connection is ever served more than twice iff alarms come last and re-arming uses ADD |
| WorkQueue.TakenInOrder | include/ThreadPool.h:33-41 | in every interleaving the appended tasks are the taken ones, each by one worker, followed by the queue |
| WorkQueue.EachLookTakesOne | src/ThreadPool.cpp:27-38 | in every run each look at a list that is not empty takes one task, the k-th of them the one appended as the k-th, and no other step takes any |
| WorkQueue.OneWakeUpPerTask | include/ThreadPool.h:33-46 | every task is announced once, and an announcement wakes exactly one worker if one sleeps |
| WorkQueue.LostWakeUp | thread_pool/myThreadPool.cpp:95-96 | a run of the unlocked discipline in which a worker sleeps while a task waits unannounced |
| WorkQueue.CoveredIff | src/ThreadPool.cpp:27-39 | while a worker sleeps, waiting tasks never exceed pending notifications plus woken workers, in all reachable states, iff appending takes the mutex |
| WorkQueue.NeverStrandedIff | src/ThreadPool.cpp:27-39 | work never waits with every worker asleep and no wake-up on its way iff appending is locked or there are two workers |
| TaskQueue.TaskQueue.AddTask | thread_pool/TaskQueue.cpp:13-19 | appends at the back |
| TaskQueue.TaskQueue.TakeTast | thread_pool/TaskQueue.cpp:29-40 | takes the front, or gives the null task and leaves the queue empty |
| ElasticThreads.ThreadPool.constructor | thread_pool/myThreadPool.cpp:20-30 | the counters, and an id array of zeros |
| ElasticThreads.ThreadPool.StartThreads | thread_pool/myThreadPool.cpp:43-47 | the id array gets the first threads' ids, and overruns iff the minimum is above the maximum |
| ElasticThreads.ThreadPool.VoteAfterWait | thread_pool/myThreadPool.cpp:129-138 | the decision to exit and both counters after a wait |
| ElasticThreads.ThreadPool.GrowPass | thread_pool/myThreadPool.cpp:185-196 | the growth loop on the array computes the undisturbed growth of `ElasticPool` and counts the threads it creates |
| ElasticThreads.ThreadPool.ThreadExit | thread_pool/myThreadPool.cpp:218-229 | a thread clears its own slot and no other, which is the clearing step of `ElasticPool` |
| ElasticPool.PassCreates | thread_pool/myThreadPool.cpp:185-196 | a growth pass during which no slot is cleared creates min(NUMBER, maxNum - liveNum, free slots) threads and overwrites no used slot, whatever other threads do meanwhile |
| ElasticPool.DisturbedPass | thread_pool/myThreadPool.cpp:185-196 | slots cleared meanwhile can only let it create more, up to min(NUMBER, maxNum - liveNum) |
| ElasticPool.GrowthCreates | thread_pool/myThreadPool.cpp:185-196 | the same numbers for the pass that nobody disturbs |
| ElasticPool.GrowthIsManaged | thread_pool/myThreadPool.cpp:185-196 | that pass is what the manager's own steps make of the pool |
| ElasticPool.NextKeepsInv | thread_pool/myThreadPool.cpp:115-231 | every step of workers, manager and clients keeps the counter, slot and mutex invariants and never crashes |
| ElasticPool.CountersStayInBounds | thread_pool/myThreadPool.cpp:120-212 | in every interleaving minNum <= liveNum <= maxNum, 0 <= busyNum <= liveNum and 0 <= exitNum <= NUMBER |
| ElasticPool.SlotAccounting | thread_pool/myThreadPool.cpp:186-229 | before a shutdown the used slots are liveNum plus the threads that decremented it and have not cleared their slot |
| ElasticPool.TasksAreTakenInOrder | thread_pool/myThreadPool.cpp:124-155 | no worker ever gets the null task, and tasks are taken in the order they were added |
| ElasticPool.EnterWaitsIff | thread_pool/myThreadPool.cpp:120-126 | an entering worker waits iff the queue is empty and the pool is not shut down; otherwise it keeps the mutex |
| ElasticPool.WakeLeavesIff | thread_pool/myThreadPool.cpp:126-139 | a woken worker uses up an exit request and leaves iff there is one and the pool is above its minimum; otherwise it goes on as one that enters |
| ElasticPool.HolderTakesIff | thread_pool/myThreadPool.cpp:141-151 | past the loop a worker quits iff the pool is shut down; otherwise it takes the front task and counts itself busy |
| ElasticPool.WorkerCycle | thread_pool/myThreadPool.cpp:118-163 | from entering or waking to the end of the task: the front task is taken and the worker is idle again |
| ElasticPool.OneWorkerDrains | thread_pool/myThreadPool.cpp:118-163 | one idle worker that nobody disturbs takes all queued tasks in order |
| ElasticPool.NothingTakenAfterShutdown | thread_pool/myThreadPool.cpp:141-145 | after a shutdown no task is taken in any run, but by a worker that passed the test before |
| ElasticPool.LeaveOnRequest | thread_pool/myThreadPool.cpp:129-139 | in every run no more threads leave than NUMBER for each request of the manager and the requests left over |
| ElasticPool.GrowsOnSampleIff | thread_pool/myThreadPool.cpp:176-183 | the manager grows the pool iff what it read before had more tasks than threads and room for more |
| ElasticPool.ManagerRound | thread_pool/myThreadPool.cpp:171-212 | an undisturbed round creates min(NUMBER, maxNum - liveNum, free slots) threads iff tasks outnumber threads, and then requests NUMBER exits iff fewer than half the threads are busy and there are more than minNum |
| ElasticPool.ManagerEndsIff | thread_pool/myThreadPool.cpp:171 | the manager ends iff its loop condition fails, under either reading |
| ElasticPool.ElasticIff | thread_pool/myThreadPool.cpp:171-198 | a pool of any bounds can change its size before a shutdown iff minNum < maxNum and the manager's loop condition is as meant |
| AsyncLoger.Buffer.constructor | src/AsyncLoger.cpp:10-13 | an empty buffer of the given size, as meant |
| AsyncLoger.Buffer.Append | src/AsyncLoger.cpp:20-24 | appends the text to what the array holds, or reports that it would run over the end |
| AsyncLoger.Buffer.AppendAvailable | src/AsyncLoger.cpp:26-30 | yes iff every text of that length still leaves room for a further stamp; after a no for a line of at most half a buffer, half the buffer is used |
| AsyncLoger.Buffer.WriteToFile | src/AsyncLoger.cpp:37-46 | the file grows by the contents and the buffer is empty |
| AsyncLoger.Loger.constructor | src/AsyncLoger.cpp:57-64 | one current and three empty buffers, all separate objects |
| AsyncLoger.Loger.LogInfo | src/AsyncLoger.cpp:141-184 | a front-end call computes `LogLine`, including truncation, rotation and the null current buffer; every unchecked append stays in its array, and a line that is too long comes back marked |
| AsyncLoger.Loger.Collect | src/AsyncLoger.cpp:88-108 | the back end's critical section with its draining loop computes `CollectAll` under either reading |
| AsyncLoger.Loger.WriteOne | src/AsyncLoger.cpp:110-118 | one round of the writing loop writes, recycles and computes `WriteBack`, or follows a null pointer |
| LogSpec.LogLineKeepsInv | src/AsyncLoger.cpp:147-181 | a call keeps content, conservation and sizes: `end` stays below the size minus 15 and every full buffer holds at least half the size minus 30 |
| LogSpec.RotatesIff | src/AsyncLoger.cpp:26-30 | a call rotates the buffers iff the stamped line and one more stamp do not leave a byte free, and otherwise appends it |
| LogSpec.LongLineIsMarked | src/AsyncLoger.cpp:149-153 | a line over half a buffer is logged up to there, ending in the mark, which also stays in the caller's string and changes nothing else of it |
| LogSpec.CollectMeantKeepsInv | src/AsyncLoger.cpp:92-107 | draining the newest first keeps the log chronological and loses no buffer |
| LogSpec.CollectKeepsLogIff | src/AsyncLoger.cpp:103-107 | draining as written keeps the log iff at most one full buffer waits; otherwise a null pointer is queued |
| LogSpec.CollectedIs | src/AsyncLoger.cpp:92-107 | what is in hand after collecting: the current buffer, then the full ones newest first, or as written the newest and null pointers; and which empty buffer becomes current |
| LogSpec.WriteBackKeepsInv | src/AsyncLoger.cpp:110-118 | writing back keeps content and conservation and returns the buffer empty |
| LogSpec.WriteBackIs | src/AsyncLoger.cpp:110-118 | the last buffer in hand is written and put, emptied, at the end of the empty ones |
| LogSpec.MeantRunRefinesLog | src/AsyncLoger.cpp:82-184 | in every interleaving file, in-flight, waiting and current buffers spell exactly the accepted lines in call order, nothing crashes, and the four buffers are each in one place |
| LogSpec.WrittenRunRefinesLogIff | src/AsyncLoger.cpp:103-107 | a run as written stays lossless iff no collection finds two full buffers, and then it equals the intended run |
| LogSpec.WrittenRunCrashes | src/AsyncLoger.cpp:103-112 | three long lines before the back end wakes make it follow a null pointer |
| LogSpec.NeverRefilled | src/AsyncLoger.cpp:92-100 | once the current buffer is null no later line is accepted, in any run |
| LogSpec.FiveLinesStarve | src/AsyncLoger.cpp:147-181 | five lines of half a buffer before the back end wakes leave a null current buffer, and only four are accepted in any continuation |
| LogSpec.AcceptedIff | src/AsyncLoger.cpp:147-175 | a call accepts its line iff there is a current buffer and line, stamp and one more stamp fill less than a buffer together with what it holds, or an empty buffer is left |
| LogSpec.AllAcceptedIff | src/AsyncLoger.cpp:147-175 | a run accepts all the lines it submits iff every call finds room |
| LogSpec.QuietLogIsComplete | src/AsyncLoger.cpp:82-120 | with both queues empty the file and the current buffer hold all accepted lines |
| HttpText.OneLineOfRendered | src/HttpData.cpp:22-39 | a line and CRLF overrun the buffer iff the line has more than 254 characters; otherwise it is read back up to its first NUL, whole iff it has none, leaving exactly the rest |
| HttpText.TokensSpellInput | src/HttpData.cpp:172-182 | tokens are non-empty and space-free and spell the input without its spaces |
| HttpText.TokensAreMaximalRuns | src/HttpData.cpp:172-182 | the tokens are exactly the maximal space-free runs of the text, in order, one for each place where a run starts |
| HttpText.TokensOfJoined | src/HttpData.cpp:172-182 | splitting space-joined tokens gives the same tokens back |
| HttpText.SplittingIsIdempotent | src/HttpData.cpp:172-182 | joining the tokens of any text and splitting again changes nothing |
| HttpText.StoiOfDecimal | src/HttpData.cpp:154-160 | the decimal rendering of a length is read back |
| HttpText.StoiOf | src/HttpData.cpp:154-160 | white space, a sign, a number and any text after it give the signed number, or nothing if an `int` cannot hold it |
| HttpText.StoiOfNothing | src/HttpData.cpp:154-160 | without a digit there is no number |
| HttpData.StringSplit | src/HttpData.cpp:172-182 | the `npos`-driven loop computes the tokens and terminates |
| HttpData.ScanPair | src/HttpData.cpp:141-147 | the two scans and the value test of one pair, under either reading |
| HttpData.ParseStringParams | src/HttpData.cpp:134-152 | the loop computes the pairs of the text added to the table, or runs off the text |
| HttpSpec.PairsDefinedIff | src/HttpData.cpp:138-152 | of any text that ends in '&', both scans stay in it iff its last segment holds a '=' |
| HttpSpec.UnterminatedIsUndefined | src/HttpData.cpp:138-141 | of any other text the scan for '&' runs off the end |
| HttpSpec.SplitUndefinedIff | src/HttpData.cpp:123-132 | a target is undefined iff it has a query whose last part has no '=' |
| HttpSpec.WordSwallowsNext | src/HttpData.cpp:138-148 | a word without '=' becomes one key with all text up to the next '=', and as meant takes all that follows as its value |
| HttpSpec.ResourceTypeIs | src/HttpData.cpp:56-58 | the resource type is what follows the last dot of the path, or "NULL" without one |
| HttpSpec.TypesAreUnique | src/HttpData.cpp:56-58 | whatever stands before the last dot, the text after it is the type |
| HttpSpec.StartOutcome | src/HttpData.cpp:184-197 | no token is a bad request, an unknown method unsupported, a method with fewer than three tokens undefined, and tokens after the third are ignored |
| HttpSpec.StartIgnoresSpaces | src/HttpData.cpp:46-47 | a first line counts by its tokens only |
| HttpSpec.RejectedLine | src/HttpData.cpp:14-18 | after such a first line nothing more is read |
| HttpSpec.HeaderLineOf | src/HttpData.cpp:73-84 | under either reading any line with the separator is recorded whole under what precedes it, if that is of interest, and asks for keep-alive by that word one character later; without it the line overruns |
| HttpSpec.ContentLengthOf | src/HttpData.cpp:154-160 | the length is what follows the first space of the recorded line; without a space it is undefined |
| HttpSpec.NulEndsBody | src/HttpData.cpp:116-120 | a NUL ends the text of a body: nothing is read before one at its start, and after any other the last pair is undefined unless it was ended |
| HttpData.Reader.constructor | src/HttpData.cpp:5-12 | nothing buffered, nothing parsed |
| HttpData.Reader.ReadRawDataFromSocket | src/HttpData.cpp:163-170 | a refill does not change the unread stream and fails iff it is exhausted |
| HttpData.Reader.FillLine | src/HttpData.cpp:27-36 | the byte loop finds the first CRLF, even one split between chunks, and every store is in range or reported |
| HttpData.Reader.ParseOneLine | src/HttpData.cpp:22-39 | for any chunking returns exactly the first line of the unread stream and leaves exactly the rest |
| HttpData.Reader.ParseUrlDataParamList | src/HttpData.cpp:123-132 | computes the split of the target under either reading |
| HttpData.Reader.ParseStartLine | src/HttpData.cpp:42-65 | the request line of the unread stream, for any chunking |
| HttpData.Reader.ParseOneHeader | src/HttpData.cpp:71-88 | one round of the header loop, for any chunking |
| HttpData.Reader.ParseHeader | src/HttpData.cpp:67-91 | all headers of the unread stream, for any chunking |
| HttpData.Reader.ParseBodyParamData | src/HttpData.cpp:101-121 | the body's pairs, for any chunking as meant; as written a failure iff the buffer is empty when the body starts |
| HttpData.Reader.ParseData | src/HttpData.cpp:14-20 | the object holds what the pure parse of the concatenated stream gives, and the unread rest is the same; as written it fails instead iff a chunk begins with an announced body |
| RequestRoundTrip.ParamsRoundTripIff | src/HttpData.cpp:134-152 | a rendered list of pairs is parsed to its last-write-wins map iff the test is as meant or every winning value is empty |
| RequestRoundTrip.QuerySplitIff | src/HttpData.cpp:123-131 | the target is split as meant iff the comparison is as meant or it has no '?' |
| RequestRoundTrip.HeaderAsWrittenIff | src/HttpData.cpp:93-98 | cut at '=', a rendered header is handled right iff its value holds '=' and it is of no interest or its very line is recorded already |
| RequestRoundTrip.StartRoundTrip | src/HttpData.cpp:42-65 | method, "www"-prefixed path, version and query parameters of a rendered request line are recovered, and the resource type is what follows the last dot of the path, or "NULL" |
| RequestRoundTrip.HeadersRoundTrip | src/HttpData.cpp:67-91 | all rendered headers are recovered in order and exactly the text after the empty line is left, or one is too long and overruns |
| RequestRoundTrip.KeepFlag | src/HttpData.cpp:80-84 | keep-alive is recorded iff the header asks for it or the uninitialised member already held true |
| RequestRoundTrip.LengthRoundTrip | src/HttpData.cpp:154-160 | the usual Content-Length header announces its number |
| RequestRoundTrip.BodyRoundTripIff | src/HttpData.cpp:101-121 | a rendered body adds exactly its pairs and leaves exactly the rest iff it is not empty and has the announced length |
| RequestRoundTrip.RequestRecoveredIff | src/HttpData.cpp:14-121 | a well-formed request is recovered whole, with exactly the following bytes unread, iff its lines fit and it is a GET or a POST with a non-empty body of the announced length |
| RequestRoundTrip.LongLinesOverrun | src/HttpData.cpp:25-31 | a request with a line that is too long overruns the line buffer |
| RequestRoundTrip.UnrecoverablePosts | src/HttpData.cpp:107-121 | how the other POSTs fail: a long line overruns, a length of zero down to -2 is read on until the stream ends or the array overruns, a smaller one throws, a missing or immense one is undefined, and too large a one reads to the end of the stream |
| RequestRoundTrip.TypeAsWritten | src/HttpData.cpp:56-58 | as written the resource type is that of the undivided target |
| RequestRoundTrip.RequestAsWritten | src/HttpData.cpp:14-121 | as written a POST, a header without '=' or a long line overruns, and any other request comes without its headers and with an undivided target |
| RequestRoundTrip.RequestAsWrittenIff | src/HttpData.cpp:14-121 | as written a request is recovered iff its lines fit and it is a GET without a query and every header holds '=' under a name of no interest |
| RequestRoundTrip.Receive | src/HttpData.cpp:14-121 | the same equivalences on the reader object under either reading, for any chunks the request arrives in |
| RequestRoundTrip.ReceiveWritten | src/HttpData.cpp:107-115 | any POST whose header lines the program as written gets through, and in which it finds the length of the body, is read iff no chunk begins with its body |
| RequestRoundTrip.LengthLineWorks | src/HttpData.cpp:93-98 | every POST can be spelled so: a '=' after Content-Length, and anything without a space up to the space before the number |
| RequestRoundTrip.SameRequestCutInTwo | src/HttpData.cpp:107-115 | any such request is read from one chunk and fails when cut after its headers |
| RequestRoundTrip.ThereIsSuchARequest | src/HttpData.cpp:107-115 | a concrete one |
| RequestRoundTrip.ChildRunsIff | src/Responser.cpp:42-48 | for a recovered request the CGI answer is always defined, and a child runs iff it is a POST or has a query; otherwise the request is refused |
| RequestRoundTrip.ChildSeesIff | src/Responser.cpp:93-100 | from the wire to the CGI child that runs: the decoded table is the one the client sent iff no winning value is spelled "NULL" |
| RequestRoundTrip.RefusedAsWritten | src/Responser.cpp:44-48 | as written every rendered request that is read is refused |
| RequestRoundTrip.WrittenPostReachesChild | src/Responser.cpp:93-100 | as written a POST whose length is found does reach a child, with the names of its parameters and no value |
| Responser.WriteParams | src/Responser.cpp:93-100 | the writing loop sends one line per parameter in iteration order |
| Responser.CgiContentLength | src/Responser.cpp:214-223 | the counting loop adds the sizes of keys and shown values |
| Responser.ExecuteCgi | src/Responser.cpp:42-100 | the refusal, or the bytes, count and length that the child gets, with the table behind a pointer |
| Responser.PipeAccounting | src/Responser.cpp:94-100 | the bytes written are the counted sizes plus two per entry iff no key or value has a NUL |
| Responser.PipeTextOfConcat | src/Responser.cpp:94-100 | the lines come in the order of iteration |
| Responser.SizeSumAnyOrder | src/Responser.cpp:214-223 | the content length does not depend on the iteration order |
| Responser.CgiAccountingIff | src/Responser.cpp:76-100 | bytes written in one order equal the length advertised in another plus twice the count iff no NUL occurs |
| Responser.CgiRunsIff | src/Responser.cpp:44-48 | no null table is ever followed, and the child runs iff there is a table and it is not empty |
| Responser.CgiRoundTripIff | src/Responser.cpp:94-100 | the child can recover the whole table iff no value is spelled "NULL", for text that the line format can carry |
| Responser.ChildIsTold | src/Responser.cpp:76-100 | for every child that runs: bytes, count and length agree iff no NUL occurs, and the table is decoded whole iff no value is spelled "NULL", for text that the line format can carry |

## Left out

- Sockets, epoll, pipes, fork and exec, signals, `stat` and file reads: chunks, descriptor sets and sequences stand for them.
- Response pages, `serverStaticFile`, `loadIndexTomemory`, address printing and time formatting.
- The assignment in the test of the server socket: taken as meant, as said above.
- Descriptors other than clients and the listening one: `accept` may return any number that is not open.
- Destructors, shutdown of the server's pool and of the logger, and the unsynchronised singleton check.
- WorkQueue.NeverStrandedIff: for the unlocked discipline it covers workers that do not exit; an exiting worker of the elastic pool may use up a wake-up.
- AsyncLoger.Buffer.constructor: sets the size and the end, which the program's constructor forgets.
- AsyncLoger.Buffer.WriteToFile: does not model a failed or partial write.
- HttpData.Reader.ReadRawDataFromSocket: does not tell a closed peer from a receive error; the endings of a worker in `HttpServer` do.
- ServerLoop.EventLoop.AcceptAll: queues what `accept` returns, as meant; with the stray `;` (src/httpserver.cpp:171) no accepted client would be served at all.
- The header fields are one table from recognised names to lines, and the request line is one record, instead of separate members.
- The pools' worker and manager loops are steps of a transition system, since other threads act between their statements; only their critical sections are methods.
- The order in which the memory of `pthread_create` writes becomes visible: a slot is filled before its thread runs.

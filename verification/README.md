# Radixun in Dafny

A model, with proofs, of the parts of the Radixun server framework whose correctness is hardest to see
from the code: the coroutine scheduler with its event table, timers and blocking calls, the chained
byte buffer with its codec, and the text forms of addresses, URIs and query strings.

`dafny verify dfyconfig.toml` checks the whole project.

| files | what they model |
|---|---|
| `SchedulerSpec`, `SchedulerInv`, `SchedulerSteps`, `SchedulerRuns`, `SchedulerShutdown`, `SchedulerWaiters`, `SchedulerStrands` | workers, task queue, fibers, event slots and timers as one interleaved machine, what every run of it keeps, and what shutting down leaves behind |
| `Scheduler` | the scheduler and its fibers as objects; each critical section is one step of that machine |
| `EventTable`, `EventRuns`, `IOManager` | event registrations as a machine over whole runs, and the object with its contexts, counter and epoll registrations |
| `TimerSpec`, `TimerRuns`, `TimerManager` | the ordered set of timers as a machine over whole runs, and the objects |
| `Hook` | the retry and time-out protocol of the hooked blocking calls on top of timers and event table |
| `Bytes`, `FlatArray`, `ByteArray`, `ByteArrayRuns`, `SocketStream` | the chain of nodes with its cursor against a flat byte sequence with a position |
| `Codec`, `TypedValues`, `TypedArray` | fixed-width, variable-length, zigzag and string encodings, on values and on the byte array |
| `Numeral`, `Address` | the text of IPv6 addresses and a reader for it |
| `UriQuery`, `Query`, `Escape` | query strings and percent escapes |
| `Uri`, `UriScanner` | printing and reading absolute URIs, and the scanner with its moving mark |

## How to read the model

* A class keeps a ghost copy of the abstract state (`state`, `table`, `View()`), and every method's
  contract equates the new abstract state with a function of the old one. The theorems about runs are
  about those functions.
* An interleaving is a sequence of actions. One action is what happens between two acquisitions of a
  lock, so every order of critical sections of any number of threads is a run. A yield to HOLD, the
  switch back and the bookkeeping after it are one step; counting down and putting a READY fiber back
  are two, so are the mark that a time-out sets and the event that it cancels, and what an idle fiber
  reads before it ends are three. A blocking call is a
  function of what the others do before it registers, while it waits, and before it tries again.
* Time is a natural number that does not go back. Clock readings taken outside a lock (`created`, `now`)
  may be older than the current time. The result of `epoll_ctl` is a parameter: it fails and changes
  nothing, or applies.
* Where an assertion of the code can fail, or the code uses a null pointer, the model has an outcome for
  it and the contract says exactly when it occurs.

## Where the code does not do what it is meant to do

* **Capacity growth** (`bytearray.cpp:337`): too few nodes are appended in some cases. `GrowthOutcome`,
  `GrowthSufficesIff` and `GrowthCanFallShort` give the exact condition and an instance. `Write` and
  everything above it carry this as the outcome `fault`.
* **Zero-byte read at the end of the capacity** (`bytearray.cpp:198`): the current node is null there.
  `Read` has the outcome `Fault` for exactly this case; it is what makes a list that ends in an empty
  string fail to be read back when the data end at a node boundary (`RoundTrip`).
* **Dispatch of a hang-up** (`iomanager.cpp:316-351`): the assertion in `triggerEvent` fails exactly when
  some but not all of the reported directions are registered. `HangupAborts` and `CancelledReportAborts`
  are instances, the second without any hang-up.
* **Lost time-out** (`hook.cpp:118-141`): the timer of a blocking call is armed before the event is
  registered. If it fires in between, its callback finds nothing to cancel, and the registration made
  after it has no time-out any more; the same goes for a callback whose `epoll_ctl` fails.
  `TimeoutEndsWaitIff` and `EndedByTimeoutIff` say exactly when a time-out can end a wait and when it
  does; `EarlyTimeoutIsLost`, `RefusedTimeoutIsLost` and, for a whole call, `TimeoutBeforeRegistering`
  are instances.
* **Shutdown** (`scheduler.cpp:162-185`): stopping is true while a worker holds a READY fiber. This
  never strands an unpinned task or a READY fiber (`NothingStranded`), but it can strand pinned tasks
  and waiters. A pinned task is lost in two ways: it is queued for a worker that is not going to look at
  the queue again (`PinnedTaskStranded`), or the worker's last look passes over it, because it is a fiber
  that is still running (`PinnedFiberStranded`). `NoTaskLeftIff` says that these two are all.
  A fiber may register for an event or a timer once the other workers have asked whether anybody does
  (`WaiterStranded`); the three reads of `IOManager::stopping` (`iomanager.cpp:263-266`) are not one step,
  so that an idle fiber can even end while somebody waits (`EndsWhileWaiting`). `NobodyLeftIff` says
  exactly when nobody is left waiting, and `OrderlyShutdownIff` when nothing at all is left.
* **Userinfo with a colon** (`uri.rl:27-50`): of a userinfo with a digit right behind its first colon,
  only the part from that digit on is kept. `RoundTrip` in `Uri` is an equivalence with this condition.
* **Empty port** (`uri.rl:27-33`): leaves no mark for the path, so that a string is made from a null
  pointer; a port that does not fit an int overflows in `atoi`. `Create` has the outcome `Undefined`
  for exactly these (`UndefinedIff`; `EmptyPort` and `LargePort` are instances).
* **`dump` of a query** (`uri_query.cpp:69-85`) ignores its delimiter. With any delimiter but the
  ampersand, parsing is stable exactly for the raw strings whose components all have the same key
  (`OtherDelimiterIff`).
* **Percent escapes** (`uri_query.cpp:101-106`) with lower-case digits are decoded to something else:
  `UpperCaseOnly`.

## Model

| member | source | states |
|---|---|---|
| SchedulerRuns.ResumesAreSafe | radixun/common/fiber.cpp:121-128 | in every run, a worker about to switch to a fiber finds it INIT, HOLD or READY, no worker runs it, its handle is the only one anywhere, and no assertion of the runtime has failed |
| SchedulerRuns.CallbackFiberIsFree | radixun/common/fiber.cpp:91-104 | in every run, the callback fiber that is about to be reset is INIT, so the assertion in `reset` holds |
| SchedulerRuns.OneRunner | radixun/common/scheduler.cpp:139-190 | in every run two workers never run the same fiber |
| SchedulerRuns.WaitsEndOnce | radixun/common/hook.cpp:158-170 | each fiber has at most one handle over queue, event slots, timers and workers, and each handle ever made was used for one switch, deleted with its event, or is still there |
| SchedulerRuns.HandlesAreDistinct | radixun/common/scheduler.h:68-75 | no two queue positions, event slots or timers, nor two of different kinds, refer to the same fiber |
| SchedulerRuns.ActiveIsExact | radixun/common/scheduler.cpp:153-165 | the count of active threads is the number of workers between taking a task and counting down, and is positive whenever one of them is about to count down |
| SchedulerRuns.NothingStranded | radixun/common/scheduler.cpp:129-225 | once every worker has left its loop, every queued task is pinned, no fiber is EXEC or READY and the active count is zero |
| SchedulerShutdown.NoTaskLeftIff | radixun/common/scheduler.cpp:136-157 | after every worker has left its loop nothing at all is queued if and only if no step queued a task for one worker that was not going to look at the queue again, and no worker's last look passed over a task for it |
| SchedulerShutdown.NoTaskStranded | radixun/common/scheduler.cpp:136-157 | so nothing is queued if nothing is pinned once the first idle fiber has ended |
| SchedulerWaiters.ExitIsChecked | radixun/common/iomanager.cpp:263-283 | an idle fiber ends only after it has read that there is no timer, then that there is no event, then that the scheduler is stopping |
| SchedulerWaiters.NobodyLeftIff | radixun/common/iomanager.cpp:263-283 | after every worker has left its loop nobody is left waiting if and only if as many timers and events have been taken out as were registered since the reads of any successful check |
| SchedulerWaiters.NoWaiterStranded | radixun/common/iomanager.cpp:263-283 | if nobody registers once a successful check has begun, the last one for instance, nobody is left waiting |
| SchedulerWaiters.WaiterStrandedIff | radixun/common/iomanager.cpp:263-283 | if nothing is taken out since then, somebody is left waiting if and only if somebody has registered since |
| SchedulerWaiters.RunBalance | radixun/common/iomanager.cpp:86-237 | over every stretch of a run, what is armed and registered at its end is what was at its start, plus what it registers, minus what it takes out |
| SchedulerWaiters.OrderlyShutdownIff | radixun/common/iomanager.cpp:263-283 | shutting down leaves nothing queued, held or waiting if and only if no pinned task is lost and everything registered since the checks has been taken out |
| SchedulerRuns.QuietForGood | radixun/common/scheduler.cpp:191-225 | once nothing is queued, held or waiting in a stopped scheduler, nothing is at any later point of the run |
| SchedulerRuns.QuietStays | radixun/common/scheduler.cpp:191-208 | a stopped state with nothing queued, held or waiting stays so under every step |
| SchedulerStrands.StoppingWhileHolding | radixun/common/scheduler.cpp:162-170 | a run in which stopping is true while a worker holds a READY fiber that it has not put back |
| SchedulerStrands.PinnedTaskStranded | radixun/common/scheduler.cpp:141-145 | a run after which every worker has left and a task pinned to one that was about to leave is still queued |
| SchedulerStrands.PinnedFiberStranded | radixun/common/scheduler.cpp:147-150 | another: a fiber schedules itself on a worker that has not left, whose last look passes over it because it is running |
| SchedulerStrands.WaiterStranded | radixun/common/iomanager.cpp:263-283 | a run after which every worker has left and a fiber still waits for an event |
| SchedulerStrands.EndsWhileWaiting | radixun/common/iomanager.cpp:263-266 | a run to an idle fiber about to end while a fiber waits, which has registered between two reads |
| SchedulerRuns.RunKeepsInv | radixun/common/scheduler.cpp:115-210 | the invariant of queue, fibers, workers and counters holds along every interleaving |
| SchedulerRuns.InitialInv | radixun/common/scheduler.cpp:16-37 | it holds of a new scheduler with any number of workers and event slots |
| SchedulerSteps.StepKeepsInv | radixun/common/scheduler.cpp:115-210 | every step of any worker, of the running fibers, of idle workers and of the outside keeps the invariant |
| SchedulerSteps.GoFiberKeeps | radixun/common/scheduler.cpp:162-163 | a fiber taken from the queue is not running and not finished, and switching to it keeps the invariant |
| SchedulerSteps.GoCallbackKeeps | radixun/common/scheduler.cpp:172-179 | making or resetting the callback fiber and switching to it keeps the invariant |
| SchedulerSteps.Sole | radixun/common/scheduler.cpp:139-156 | where a worker has a fiber to itself, nothing in queue, slots, timers and other workers refers to it |
| SchedulerSteps.EmptyScan | radixun/common/scheduler.cpp:136-157 | a scan that finds nothing although an unpinned task is queued means that another worker runs that task's fiber and will look at the queue again |
| SchedulerSteps.YieldHoldKeeps | radixun/common/scheduler.cpp:168-169 | a fiber that yields to HOLD, with its handle already somewhere else, keeps the invariant |
| SchedulerSteps.DecrementKeeps | radixun/common/scheduler.cpp:165-166 | counting down before putting a READY fiber back keeps the invariant |
| SchedulerSteps.PutBackKeeps | radixun/common/scheduler.cpp:182-184 | putting a READY fiber back, and giving up the callback fiber, keeps the invariant |
| SchedulerSteps.RescheduleKeeps | radixun/common/scheduler.h:33-42 | a running fiber that queues itself before it yields keeps the invariant |
| SchedulerSteps.BatchKeeps | radixun/common/scheduler.h:45-57 | queueing the collected timer callbacks in one batch keeps the invariant |
| SchedulerSteps.CancelTimerKeeps | radixun/common/hook.cpp:132-140 | a running fiber that cancels a timer with a plain callback keeps the invariant |
| SchedulerSpec.FirstTakeable | radixun/common/scheduler.cpp:139-156 | the scan stops at the first task that is not pinned elsewhere and whose fiber is not EXEC |
| Schedulers.Scheduler.ScheduleNoLock | radixun/common/scheduler.h:66-75 | appends the task unless it is empty, and reports whether the queue was empty before |
| Schedulers.Scheduler.ScheduleAll | radixun/common/scheduler.h:44-57 | swaps the handles out of the caller's elements, appends those that hold something in order and unpinned, and asks for a tickle if and only if the queue was empty and there was an element |
| Schedulers.FilledKeepsAll | radixun/common/scheduler.h:68-74 | of a batch whose elements all hold something, none is left out |
| Schedulers.Scheduler.Scan | radixun/common/scheduler.cpp:139-156 | finds the first task that may be taken, and asks for a tickle if and only if it passed a task pinned elsewhere |
| Schedulers.Scheduler.Take | radixun/common/scheduler.cpp:136-157 | taking a task on the objects is the Take step of the machine |
| Schedulers.Scheduler.Begin | radixun/common/scheduler.cpp:162-196 | switching to what was taken is the Go step; the branch for a finished fiber is never reached and both assertions in fiber.cpp hold |
| Schedulers.Scheduler.RunJob | radixun/common/hook.cpp:158-170 | the bound callback of a sleep timer is the WakeUp step: it queues the sleeping fiber |
| Schedulers.Scheduler.YieldToHold | radixun/common/fiber.cpp:158-163 | yielding to HOLD with the bookkeeping after it is the YieldHold step |
| Schedulers.Scheduler.YieldToReady | radixun/common/fiber.cpp:151-156 | yielding to READY is the YieldReady step |
| Schedulers.Scheduler.End | radixun/common/fiber.cpp:169-195 | the end of a fiber's function is the Finish step |
| Schedulers.Scheduler.CountDown | radixun/common/scheduler.cpp:180-186 | counting down and resetting a finished callback fiber is the Decrement step |
| Schedulers.Scheduler.PutBack | radixun/common/scheduler.cpp:166-167 | scheduling a READY fiber again is the PutBack step |
| Schedulers.Scheduler.ScheduleFiber | radixun/common/scheduler.h:33-42 | scheduling a new fiber from a running one is the Spawn step |
| Schedulers.Scheduler.Stop | radixun/common/scheduler.cpp:69-85 | the flags set by stop are the Stop step |
| Schedulers.Scheduler.IsStopping | radixun/common/scheduler.cpp:216-219 | true if and only if the machine is stopping |
| Schedulers.Scheduler.Idle | radixun/common/scheduler.cpp:221-225 | asked at last, the idle fiber ends if and only if stopping is true; otherwise it gives the thread back, or goes on to wait for events |
| Schedulers.Scheduler.constructor | radixun/common/scheduler.cpp:16-37 | a new scheduler is the initial state of the machine |
| EventRuns.WholeRun | radixun/common/iomanager.cpp:33-46 | in every run each registration ever made is in exactly one place: its event context, handed to a scheduler, or removed |
| EventRuns.ExactlyOnePlace | radixun/common/iomanager.cpp:86-237 | and it is there only once |
| EventRuns.StepKeepsInv | radixun/common/iomanager.cpp:86-237 | every operation of the event table, with either answer of epoll_ctl, keeps that |
| EventRuns.FirstWakes | radixun/common/iomanager.cpp:169-237 | the first of readiness, the cancelEvent of a time-out, cancelEvent and cancelAll to reach a registration hands over its waiter, and nothing later in the run hands it over again |
| EventRuns.UntargetedRun | radixun/common/iomanager.cpp:306-352 | until then the registration stays as it was made |
| EventRuns.TargetTakesOut | radixun/common/iomanager.cpp:33-46 | an operation that reaches a registration empties its slot, and hands it over unless it is delEvent |
| EventRuns.OutStaysOut | radixun/common/iomanager.cpp:135-237 | a registration that is out of its slot stays out and is not handed over again |
| EventRuns.OneTimeoutPerCall | radixun/common/hook.cpp:118-125 | of all timers that one blocking call arms, at most the first to fire while the call is in progress does anything |
| EventRuns.OneStrikePerCall | radixun/common/hook.cpp:123-124 | and its callback cancels the event once |
| EventRuns.EndedByTimeoutIff | radixun/common/hook.cpp:118-128 | left to the time-out alone, a wait has ended after a run, its waiter handed over, if and only if the callback has cancelled the event in it and epoll_ctl applied |
| EventRuns.TimeoutEndsWaitIff | radixun/common/hook.cpp:118-128 | a time-out can still end a wait if and only if the call had not timed out before it registered, or the callback has yet to cancel the event |
| EventRuns.LostTimeout | radixun/common/hook.cpp:118-128 | a registration made after the call has timed out stays, whatever its timers do |
| EventRuns.EarlyTimeoutIsLost | radixun/common/hook.cpp:118-128 | a run from a fresh table to a wait without a time-out: the timer fires before the event is registered |
| EventRuns.RefusedTimeoutIsLost | radixun/common/iomanager.cpp:186-193 | another: epoll_ctl refuses the change that the callback asks for |
| EventRuns.HangupAborts | radixun/common/iomanager.cpp:316-351 | after one registration on a fresh table, any hang-up on its descriptor reaches the failing assertion |
| EventRuns.CancelledReportAborts | radixun/common/iomanager.cpp:316-351 | so does a true report of two registered directions when one of them is cancelled before it is dispatched |
| IOManagers.IOManager.AddEvent | radixun/common/iomanager.cpp:86-133 | adds a registration for the callback or else for the fiber; fails with the assertion exactly when the bit is set, with -1 exactly when epoll_ctl fails; the assertion on the empty context never fails |
| IOManagers.IOManager.DelEvent | radixun/common/iomanager.cpp:135-167 | takes the registration out without waking; true if and only if there was one and epoll_ctl applied |
| IOManagers.IOManager.CancelEvent | radixun/common/iomanager.cpp:169-199 | hands the waiter over; true if and only if there was one and epoll_ctl applied |
| IOManagers.IOManager.CancelAll | radixun/common/iomanager.cpp:201-237 | hands over both waiters, reading first, and leaves no bit set |
| IOManagers.IOManager.Dispatch | radixun/common/iomanager.cpp:306-352 | wakes exactly the registered directions of a report, and aborts if and only if some but not all reported directions are registered and epoll_ctl applied |
| IOManagers.IOManager.EpollCtl | radixun/common/iomanager.cpp:109-113 | its requirement, met at every call, makes every operation legal: ADD only when not registered, MOD and DEL only when registered |
| IOManagers.IOManager.Wake | radixun/common/iomanager.cpp:195-196 | triggerEvent and the count: the waiter goes to its scheduler and the pending count goes down by one |
| IOManagers.FdContext.TriggerEvent | radixun/common/iomanager.cpp:33-46 | passes the stored handle to the stored scheduler once and leaves the context empty; its assertion fails if and only if the bit is not set |
| IOManagers.IOManager.ContextResize | radixun/common/iomanager.cpp:239-248 | growing keeps every context and numbers the new, empty ones |
| IOManagers.BitMeansWaiter | radixun/common/iomanager.h:32-52 | a set bit means a scheduler and exactly one of callback and fiber, a clear one an empty context; epoll holds a descriptor if and only if it has bits, and these are its interest mask; the pending count is the number of registrations |
| TimerRuns.WholeRun | radixun/common/timer.cpp:40-167 | over every run no timer fires early, at most one front notification falls between two reports, and without one nothing stored is due before the reported deadline; one-shots fire once |
| TimerRuns.StepKeepsInv | radixun/common/timer.cpp:40-179 | every operation keeps the set strictly ordered and equal to the timers with a callback, and no earlier deadline unannounced |
| TimerRuns.CollectIsExact | radixun/common/timer.cpp:132-167 | collecting gives exactly one callback for each timer due, in order of the deadlines, and for no other timer |
| TimerRuns.CollectKeeps | radixun/common/timer.cpp:152-166 | due recurring timers are rearmed at now plus their period, due one-shots disarmed, all others untouched |
| TimerRuns.ProbeIrrelevant | radixun/common/timer.cpp:149-153 | the probe's address changes where the scan of equal deadlines starts, not where it ends |
| TimerRuns.CancelledNeverFires | radixun/common/timer.cpp:40-49 | after a cancel that returned true no later run collects the timer |
| TimerRuns.DisarmedStays | radixun/common/timer.cpp:51-89 | a timer without callback stays without it under every later run |
| TimerRuns.FiresArePaced | radixun/common/timer.cpp:159-165 | in every run without a reset of it, two fires of a timer lie at least its period apart |
| TimerRuns.OneShotsFireOnce | radixun/common/timer.cpp:159-165 | in every run a one-shot is collected at most once, resets included |
| TimerRuns.RefreshNotEarlier | radixun/common/timer.cpp:51-64 | refresh never moves a deadline earlier |
| TimerRuns.StoreKeepsAnnounced | radixun/common/timer.cpp:169-179 | storing a timer notifies whenever it is due before everything announced |
| TimerSpec.MemberIsFound | radixun/common/timer.cpp:44-45 | the lookups in cancel, refresh and reset find the armed timer, so end() is never erased |
| TimerSpec.BeforeIsStrictTotal | radixun/common/timer.cpp:9-26 | the comparator, null pointers included, is a strict total order |
| Timers.TimerManager.AddTimer | radixun/common/timer.cpp:99-104 | makes and stores a timer, and notifies if and only if it is first and nobody has been notified since the last report |
| Timers.TimerManager.Cancel | radixun/common/timer.cpp:40-49 | disarms and removes; true if and only if the timer was armed |
| Timers.TimerManager.Refresh | radixun/common/timer.cpp:51-64 | moves an armed timer to now plus its period |
| Timers.TimerManager.Reset | radixun/common/timer.cpp:66-89 | moves an armed timer to its new period; true also for a disarmed one whose period would not change |
| Timers.TimerManager.GetNextTimer | radixun/common/timer.cpp:117-130 | the wait until the earliest armed deadline: none if there is none, zero if one is due, otherwise exactly to an existing deadline |
| Timers.TimerManager.HasTimer | radixun/common/timer.cpp:181-184 | true if and only if a timer is armed |
| Timers.TimerManager.ListExpiredCb | radixun/common/timer.cpp:132-167 | the loops on the objects return the callbacks of the collected timers in order, for every probe address and stale clock reading, period zero included |
| Timers.TimerManager.Expired | radixun/common/timer.cpp:145-153 | the scan from the probe's place ends behind the last due timer |
| Timers.TimerManager.Elapse | radixun/common/timer.cpp:117-137 | time passes: the step of the machine that moves the clock which the other methods read |
| Timers.Replay | radixun/common/timer.cpp:40-184 | any legal sequence of operations on a fresh manager, with any addresses for the probe timers, ends in the state that the machine's run ends in |
| Hook.DoIo | radixun/common/hook.cpp:83-150 | the loop with its retries returns exactly what the functions `Last` and `Answer` say, for every sequence of returns and every behaviour of the others |
| Hook.Answers | radixun/common/hook.cpp:107-149 | the call passes over exactly the interrupted and would-block returns with one wait for each of the latter; when it comes back none of its timers is armed, each of its registrations was handed over for this fiber once, and its record is dead, marked if it reports a time-out and only if one of its timers has fired |
| Hook.UnfinishedIff | radixun/common/hook.cpp:107-146 | it stays unfinished if and only if the returns are used up, or the next wait has no script, one that cannot be played, or one in which its registration is never handed over; it aborts if and only if the event is registered already |
| Hook.NoWaitNeeded | radixun/common/hook.cpp:108-111 | when the first return that is no interruption does not block, the call returns it without waiting, whatever the others do |
| Hook.TurnKeeps | radixun/common/hook.cpp:117-145 | through one wait, with any run of timers and event table before the registration, during the wait and after it, earlier timers stay disarmed and earlier registrations handed over |
| Hook.HangsIff | radixun/common/hook.cpp:118-137 | with the wait left to the time-out, the call hangs if and only if the callback does not cancel the event in the wait, or epoll_ctl refuses |
| Hook.EarlyTimeoutHangs | radixun/common/hook.cpp:118-137 | if the call has timed out by the time it registers and nobody else reaches the event, the fiber is not woken |
| Hook.TimeoutBeforeRegistering | radixun/common/hook.cpp:118-137 | an instance from the start: with a time-out of 0, collected before the fiber has registered, the call never comes back |
| Hook.DisarmSpends | radixun/common/hook.cpp:132-140 | after the cancel the timer has no callback, whether it had fired or not |
| FlatArray.GrowthOutcome | radixun/common/bytearray.cpp:337-356 | line 337 leaves too little room exactly under the stated condition on what is missing, and otherwise appends exactly the intended number of nodes, whatever the chain had before |
| FlatArray.GrowthSufficesIff | radixun/common/bytearray.cpp:337 | the growth suffices if and only if not 0 < missing mod base <= old capacity |
| FlatArray.GrowthVersusCeiling | radixun/common/bytearray.cpp:337 | line 337 gives the intended number of nodes, or one fewer exactly under that condition |
| FlatArray.NodesNeededIsLeast | radixun/common/bytearray.h:110-111 | the intended number of nodes is the least that holds the missing bytes |
| FlatArray.NodesNeededIsCeiling | radixun/common/bytearray.h:110-111 | and equals the rounded-up quotient |
| FlatArray.GrowthCanFallShort | radixun/common/bytearray.cpp:337 | an instance in which line 337 appends too few nodes |
| FlatArray.FillThenMove | radixun/net/socket_stream.cpp:27-38 | filling the write buffers and moving the position gives the contents and cursor that writing those bytes gives |
| ByteArrays.ByteArray.constructor | radixun/common/bytearray.cpp:116-124 | a new array is the empty flat sequence |
| ByteArrays.ByteArray.AddCapacity | radixun/common/bytearray.cpp:327-356 | appends the nodes of line 337 at the end of the chain, and gives the cursor a node if it had none |
| ByteArrays.ByteArray.Write | radixun/common/bytearray.cpp:149-187 | overwrites and extends the flat sequence at the cursor and moves it; faults if and only if the growth falls short |
| ByteArrays.ByteArray.Read | radixun/common/bytearray.cpp:190-220 | returns the next bytes of the flat sequence and moves the cursor; out of range if and only if too few are unread; faults if and only if no byte is asked for at the end of the capacity |
| ByteArrays.ByteArray.Clear | radixun/common/bytearray.cpp:254-265 | back to the empty sequence with one node |
| ByteArrays.ByteArray.SetPosition | radixun/common/bytearray.cpp:267-283 | moves the cursor, extending the size, or is out of range and changes nothing |
| ByteArrays.ByteArray.CurrentNode | radixun/common/bytearray.cpp:275-282 | the cached node is the one at position / base, and null if and only if the position is at the capacity |
| ByteArrayRuns.Replay | radixun/common/bytearray.cpp:149-283 | every sequence of writes, reads, moves and clears answers and ends as the flat sequence with a cursor does, for every base size |
| ByteArrays.ByteArray.GetReadBuffers | radixun/common/bytearray.cpp:385-414 | the pieces cover the unread bytes, up to the length asked for, inside the nodes |
| ByteArrays.ByteArray.GetWriteBuffers | radixun/common/bytearray.cpp:453-481 | the pieces cover the next bytes of the capacity, grown first |
| ByteArrays.ByteArray.GatherIsSlice | radixun/common/bytearray.cpp:398-412 | the pieces joined are exactly that slice of the flat sequence |
| ByteArrays.ByteArray.PiecesDisjoint | radixun/common/bytearray.cpp:398-412 | no two pieces overlap |
| ByteArrays.ByteArray.Scatter | radixun/net/socket_stream.cpp:33-36 | filling the first bytes of the pieces changes exactly those bytes of the flat data |
| SocketStreams.Read | radixun/net/socket_stream.cpp:27-38 | what the socket delivers is overwritten at the cursor, which moves behind it; otherwise the contents stay |
| SocketStreams.Write | radixun/net/socket_stream.cpp:47-58 | what the socket takes is the front of the unread bytes, and the cursor moves by as much |
| Codec.VarintLength | radixun/common/bytearray.cpp:63-83 | a value needs at most k bytes if and only if it is below 128 to the k |
| Codec.VarintFitsScratch | radixun/common/bytearray.cpp:64-75 | 5 and 10 bytes suffice for 32 and 64 bits, so `tmp` is never overrun |
| Codec.VarintNeedsScratch | radixun/common/bytearray.cpp:64-75 | and are reached |
| Codec.VarintMinimal | radixun/common/bytearray.cpp:63-83 | no shorter byte string is a code of the same value |
| Codec.VarintPrefixFree | radixun/common/bytearray.cpp:63-83 | no code is a proper prefix of another |
| Codec.VarintRoundTrip | radixun/common/bytearray.cpp:86-112 | reading a code with any bytes behind it gives the value and stops right behind the code |
| Codec.ZigzagRoundTrip | radixun/common/bytearray.cpp:37-60 | decoding undoes encoding under wrap-around, the minimum integer included |
| Codec.ZigzagOnto | radixun/common/bytearray.cpp:37-60 | and encoding undoes decoding, so it is a bijection |
| Codec.FixedBytesHostFree | radixun/common/bytearray.cpp:493-533 | the bytes written depend on the array's order only, not on the host's |
| Codec.FixedRoundTrip | radixun/common/bytearray.cpp:599-629 | a fixed-width value survives, even between hosts of different order |
| Codec.SignedRoundTrip | radixun/common/bytearray.cpp:493-526 | signed values survive the unsigned representation |
| TypedValues.ValueRoundTrip | radixun/common/bytearray.cpp:486-691 | parsing the encoding of one typed value, with anything behind it, gives the value and the rest |
| TypedValues.ListRoundTrip | radixun/common/bytearray.cpp:486-691 | the same for lists of mixed types |
| TypedValues.OverlongString | radixun/common/bytearray.cpp:561-569 | a string too long for its prefix is read back cut to its length modulo the prefix's range |
| TypedArrays.Pack | radixun/common/bytearray.cpp:63-83 | the loop into the scratch array writes exactly the code of the value, inside its bounds |
| TypedArrays.ReadUint | radixun/common/bytearray.cpp:86-112 | the loop with shifts and ors computes the parsed value modulo the width, on every input |
| TypedArrays.WriteValue | radixun/common/bytearray.cpp:486-583 | writing a typed value writes its encoding |
| TypedArrays.ReadValue | radixun/common/bytearray.cpp:587-691 | reading a typed value parses the unread bytes |
| TypedArrays.RoundTrip | radixun/common/bytearray.cpp:486-691 | for every list of typed values that fit, base size and byte order: writing fails if and only if a growth falls short, reading back fails if and only if the list ends in an empty string at a node boundary, and otherwise the list comes back with nothing left to read |
| TypedArrays.WritesFitIff | radixun/common/bytearray.cpp:337 | which write calls of a list go through, from their offsets and lengths alone: a call falls short if and only if it is longer than the room in the last node and ends in a part of a node that is not empty and no longer than that room |
| TypedArrays.FreshWritesFitIff | radixun/common/bytearray.cpp:337 | the same for a fresh array, which is the condition of `RoundTrip` |
| TypedArrays.OneByteNodesFit | radixun/common/bytearray.cpp:337 | with base size 1 no write falls short |
| Address.ReadsBack | radixun/net/address.cpp:421-441 | a reader after section 2.2 of RFC 4291 recovers the eight groups of every address from the printed text |
| Address.AtMostOneDouble | radixun/net/address.cpp:424-437 | the text has at most one double colon |
| Address.ShownIsInjective | radixun/net/address.cpp:421-441 | different addresses or ports print differently |
| Address.InsertGroups | radixun/net/address.cpp:423-437 | the printing loop gives the text in which the first run of zero groups is a double colon |
| Address.Insert | radixun/net/address.cpp:421-441 | with brackets and port, on hosts of either byte order |
| Address.GroupHostFree | radixun/common/endian.h:47-66 | reading two bytes as a host integer and swapping on little-endian hosts gives the network value on every host |
| Uri.RoundTrip | radixun/http/uri.rl:134-196 | every valid URI is read back from its text, and agrees in every getter if and only if its userinfo has no digit right behind its first colon |
| Uri.ParseToString | radixun/http/uri.rl:184-196 | what reading makes of a printed URI: same but for the default port, the empty path and such a userinfo |
| Uri.ParsedIsValid | radixun/http/uri.rl:15-130 | every URI that the reader makes of an absolute text is valid |
| UriScanner.Create | radixun/http/uri.rl:134-153 | the single pass with mark actions reads exactly what the grammar says |
| UriScanner.ScanAuthority | radixun/http/uri.rl:34-70 | scanning userinfo and host with port at the same time, with one mark, keeps what the grammar's alternatives keep |
| UriScanner.ScanPath | radixun/http/uri.rl:76-103 | the path from the mark; undefined if and only if an empty port has taken the mark away and the path is complete |
| Uri.UndefinedIff | radixun/http/uri.rl:27-33 | reading is undefined if and only if the text has a port that is empty in front of a complete path, or too large for an int |
| Uri.EmptyPort | radixun/http/uri.rl:27-33 | an instance for every scheme and host: an empty port in front of a slash |
| Uri.LargePort | radixun/http/uri.rl:27-33 | another: the first port that does not fit an int |
| UriQuery.ParseIsStable | radixun/http/uri_query.cpp:55-85 | for every raw string, dumping what was parsed and parsing it again changes nothing |
| UriQuery.DumpThenParse | radixun/http/uri_query.cpp:69-85 | any parameters with clean keys and values survive dumping and parsing |
| UriQuery.FirstWins | radixun/http/uri_query.cpp:61-64 | of components with the same key the first one counts |
| UriQuery.OtherDelimiterIff | radixun/http/uri_query.cpp:69-85 | with any other delimiter, parsing is stable if and only if all components of the raw string have the same key |
| UriQuery.OneKeyIff | radixun/http/uri_query.cpp:55-67 | that is, if and only if it is parsed to at most one parameter |
| UriQuery.OtherDelimiterIsNot | radixun/http/uri_query.cpp:69-85 | an instance |
| Queries.SplitLines | radixun/http/uri_query.cpp:10-19 | the getline loop gives the fields, without an empty one at the end |
| Queries.Query.Emplace | radixun/http/uri_query.cpp:63 | keeps the parameters in order and never replaces one |
| Queries.Query.Parse | radixun/http/uri_query.cpp:55-67 | the loop over the components fills a new query with the parsed parameters |
| Queries.Query.Dump | radixun/http/uri_query.cpp:69-85 | the loop prints the dumped text |
| Escape.DecodeEncode | radixun/http/uri_query.cpp:108-150 | decoding what was encoded never throws and gives every byte string back |
| Escape.EncodedLength | radixun/http/uri_query.cpp:108-125 | encoding adds two bytes for each one escaped, so it at most triples the length |
| Escape.EncodedIsPlain | radixun/http/uri_query.cpp:95-99 | the encoded text has no byte that has to be escaped, but for its percent signs |
| Escape.ThrowsIff | radixun/http/uri_query.cpp:132-142 | decoding throws if and only if the scan meets a percent sign with fewer than two bytes behind it |
| Escape.UpperCaseOnly | radixun/http/uri_query.cpp:101-106 | an escape decodes to the byte it stands for if and only if neither digit is lower-case |
| Escape.EncodeUrl | radixun/http/uri_query.cpp:108-125 | the loop encodes |
| Escape.DecodeUrl | radixun/http/uri_query.cpp:127-150 | the loop with its two look-aheads decodes, or throws |

## Left out

- The Ragel-generated machines, the HTTP parsers and `uri.rl.cc`, state by state: the URI grammar and its actions are modelled.
- URIs without scheme and "//", with an IP literal as host, or whose scheme is followed by a path: `Create` answers `Elsewhere` for these as for rejected texts.
- `ucontext` switching and stacks, pthread primitives, `epoll_wait`, sockets, DNS, MySQL, YAML, logging and files.
- `std::exception` thrown by a task: it leaves the fiber EXEC (`fiber.cpp:178-182`). Other thrown objects are modelled.
- The atomicity of "set HOLD, switch out, bookkeeping": the code gives no such guarantee, the model assumes it. Without it another worker may resume a fiber that is still on its stack.
- Fibers scheduled twice by their users: outside code and running fibers schedule new fibers, callbacks, or themselves right before they yield.
- Wake-up liveness: `tickle` returns early when there are idle threads; front notifications are proved at the timer manager.
- What an idle fiber of `IOManager` does between a failed check and giving the thread back is one choice after the other of collecting timers, queueing their callbacks and firing events, in any order; the wake-up calls to `tickle` are not steps.
- Growth of the descriptor table by several threads at once, and descriptors closed behind the table's back.
- `connect_with_timeout` and the other hooks around `do_io`.
- Reuse of a timer's address after its timer is gone: every timer has an address of its own.
- `readFromFile`, `writeToFile`, `toString`, `toHexString`, the const `read`, `getReadBuffers` with a position, and floating-point values of the byte array. The const `read` starts from the cached node and is meaningful only at the current position.
- Base size 0 of a byte array, which divides by zero; 64-bit overflow of sizes and deadlines.
- IPv4 addresses, `broadcastAddress`, `networdAddress`, `subnetMask`; `add`, `motify`, `erase` and `getvalue` of queries.

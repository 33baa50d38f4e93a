# SAOmega plugin: verified models

SAOmega is a game-server plugin with a small MySQL client beside it. This project models the parts of it
that are hardest to get right by reading, and proves what they promise.

- `TaskPool.dfy`, `TaskPoolShutdown.dfy`, `TaskExecutor.dfy`: the task executor. `TaskPool` is the protocol: a
  mutex, a condition variable with spurious wakeups, any number of workers and clients, one shutdown that drains
  and joins. A step is what one thread does between two points where another can intervene. `TaskPoolShutdown`
  shows how a shutdown ends. `TaskExecutor` is the object whose methods take those steps in place and keep the
  protocol's invariant.
- `ExitStatus.dfy`, `ExitCompletes.dfy`, `PluginLife.dfy`: the pool at work on files. Each `writeFile` task opens
  (truncates) and writes in separate steps, so tasks on two workers interleave inside each other; the game thread
  enters the exit hook, joins, and reports. `ExitCompletes` shows that the hook can always finish and that the
  race it avoids is reachable. `PluginLife` is the plugin's own part of that, in place, around an executor object.
- `WorldSave.dfy`, `WorldSaveRuns.dfy`, `WorldSaveAnswers.dfy`, `WorldSaveHooks.dfy`: the world-save scheduler as
  a function of its state, what holds over its runs, what each request comes to, and the hooks that update its
  globals.
- `RwLock.dfy`, `RwLockHolds.dfy`, `RwLockCalls.dfy`: the Windows reader/writer lock wrapper, interleaved, what its
  callers get, and its whole calls.
- `ByteOrder.dfy`, `TrailingSpace.dfy`, `Timespec.dfy`: byte-order loads and stores, word-at-a-time trimming,
  deadlines for timed waits.
- `ResultCursor.dfy`, `ResultWalks.dfy`, `ResultEach.dfy`, `ResultCalls.dfy`: query results whose iterators share
  one cursor, where the iterators get to, and `each` against callbacks that move the cursor.
- `Datetime.dfy`, `DatetimeFormat.dfy`, `DatetimeCalls.dfy`: printing a datetime and reading it back, the format of
  the text, and the object that prints and is filled.
- `Experience.dfy`: the re-entrant experience hook.
- `Base.dfy`, `Folds.dfy`: integer widths and other shared definitions; sums over sequences, used by the
  invariants.

Conventions. Where the code changes state step by step, a class holds the fields and each method's contract
equates the new state with a function of the old one; what is promised is proved about that function, over every
step or every run. Histories (`accepted`, `taken`, `finished`, `saves`, …) are part of the model only. Clocks,
timers, files, chat texts and the engine are parameters or steps of the environment.

What turned out to hold only under a condition is stated with that condition as an equivalence:

- `shutdown` drains the queue exactly when there is a worker or nothing was queued; the default thread count,
  the hardware's, may be zero.
- The save throttle needs a clock that does not run backwards: timestamps are unsigned, so a step back reads as a
  very old save and is let through at once, however far back it goes (up to 2^64 - 1200 s).
- A datetime is restored by printing and reading exactly unless it is a time without a date
  that prints a negative field; the seconds come back without their fraction.
- `set_timespec_nsec`, `set_timespec`, `get_milliseconds` and `diff_timespec` are exact precisely below their
  overflow points, and past them off by the turn of the counter that is lost.
- `each` and the container show the same tuples exactly when every scalar field converts. `each` ends after every
  row, once and in order, exactly when its callback goes on at every row but the last and has the cursor back on
  its row whenever it goes on. A callback that dereferences a fresh iterator does not: on two rows or more it is
  shown the second one for ever.

Where documentation and code differ, the code is followed: `skip_trailing_space` is documented to return the last
character that is not a space and returns the position after it (`libs/mysql/m_string.h:277`); the log line of a
deferred save names a recent save as a possible cause, but a save is deferred for damage only
(`Plugin/worldsave.cpp:112-115`).

## Model

| member | source | states |
|---|---|---|
| TaskPool.NoLostWakeup | Helpers/TaskExecutor.cpp:22-63 | In every reachable state: if a worker sleeps un-notified, the flag is down and the queue is no longer than the number of workers on their way to it; a queued task finds all workers busy or one coming |
| TaskPool.FifoExactlyOnce | Helpers/TaskExecutor.cpp:14-64 | Tasks leave the queue in the order they were pushed; every accepted task, inline ones included, is in exactly one of queued, executing, finished, once |
| TaskPool.NothingPushedAfterFlag | Helpers/TaskExecutor.cpp:16-25 | After the shutdown flag is set it stays set and nothing enters the queue |
| TaskPool.ShutdownDrains | Helpers/TaskExecutor.cpp:28-60 | When the joins have returned, the queue is empty iff there was a worker or nothing was pushed; with a worker every pushed task was executed exactly once, throwing or not |
| TaskPool.RemainingFalls | Helpers/TaskExecutor.cpp:47-69 | After the flag, a measure on queue, workers and joins falls at each of their steps and is untouched by other clients |
| TaskPool.ShutdownIsBounded | Helpers/TaskExecutor.cpp:28-69 | Along any run after the flag, workers and the joining thread take at most as many steps as the measure allows |
| TaskPool.ShutdownIsNeverStuck | Helpers/TaskExecutor.cpp:28-69 | Until the joins have returned, a worker, the joining thread, or the client holding the mutex has a step to take |
| TaskPoolShutdown.ShutdownCompletes | Helpers/TaskExecutor.cpp:28-69 | From every reachable state after the call of `shutdown`, finishing what has been begun makes every worker leave and the joins return |
| TaskPoolShutdown.NoWorkersLeaveTheQueue | Helpers/TaskExecutor.cpp:6-39 | The failing input of the drain: with no workers a task is accepted, the shutdown returns, and the task is still queued |
| TaskPool.InitInv | Helpers/TaskExecutor.cpp:6-10 | A new executor satisfies the invariant |
| TaskPool.StepKeepsInv | Helpers/TaskExecutor.cpp:14-69 | Every step of every thread keeps it |
| TaskPool.WakeStep | Helpers/TaskExecutor.cpp:22-63 | Every step, spurious wakeups included, keeps the wakeup invariant |
| TaskPool.FifoStep | Helpers/TaskExecutor.cpp:22-62 | Every step keeps taken followed by queued equal to pushed |
| TaskPool.OnceStepFor | Helpers/TaskExecutor.cpp:14-64 | Every step keeps each task in exactly one place |
| TaskExecutor.Executor.constructor | Helpers/TaskExecutor.cpp:6-10 | The object starts in the protocol's initial state |
| TaskExecutor.Executor.Run | Helpers/TaskExecutor.cpp:15-25 | The locked part of `run`: push and notify one sleeper, or start the task inline after the flag |
| TaskExecutor.Executor.RunInlineEnds | Helpers/TaskExecutor.cpp:17-21 | An inline task ends, by return or exception, and the mutex is released |
| TaskExecutor.Executor.ShutdownLocked | Helpers/TaskExecutor.cpp:29-35 | The flag is set and every sleeper woken, in one locked block |
| TaskExecutor.Executor.JoinNext | Helpers/TaskExecutor.cpp:36-38 | Threads are joined in order, each after it has exited |
| TaskExecutor.Executor.DispatchLocked | Helpers/TaskExecutor.cpp:53-62 | Under the lock a worker sleeps, leaves, or takes the front task |
| TaskExecutor.Executor.TaskEnds | Helpers/TaskExecutor.cpp:64-68 | A task ends, by return or exception, and the worker goes back for more |
| ExitStatus.ExitStatusWins | Plugin/saomega.cpp:85-92 | In every interleaving, once the exit hook has reported, status.txt is "cleanshutdown" iff `shuttingDown` was set, "unexpectedshutdown" iff not |
| ExitStatus.ActKeepsInv | Plugin/util.cpp:18-28 | No file action of a worker or client can disturb the report |
| ExitStatus.WorkersAreGone | Helpers/TaskExecutor.cpp:36-38 | From the report on, no worker is inside a task |
| ExitStatus.UndisturbedTaskOverwrites | Plugin/util.cpp:18-25 | A task nobody disturbs leaves its file with its own line only, and no other file changed |
| ExitStatus.QueuedWritesRace | Plugin/util.cpp:18-25 | Without the joins the order of two queued writes does not decide what the file ends up with |
| ExitCompletes.ExitHookCompletes | Plugin/saomega.cpp:85-92 | From wherever the workers and the other clients stand when the hook has been entered, the joins can return and the hook come to its end with the status line in the file |
| ExitCompletes.EitherStatusIsReached | Plugin/saomega.cpp:85-92 | From the plugin's start, with any workers, clients and files, each of the two statuses is the outcome of some life |
| ExitCompletes.RaceIsReachable | Plugin/util.cpp:18-28 | From the plugin's start, two queued status writes can end with the first text laid over the second |
| PluginLife.Plugin.OpenTarget | Plugin/util.cpp:20-21 | The target is there and empty whatever it held; no other file and no other agent is touched, and the life's invariant is kept |
| PluginLife.Plugin.WriteTarget | Plugin/util.cpp:22-23 | The target begins with the line, keeps only the tail of a longer content behind it, and is the line if it was empty; no other file and no other agent is touched, and the invariant is kept |
| PluginLife.Plugin.ExitHookEnters | Plugin/saomega.cpp:85-87 | The game thread is in the one shutdown, and a life from there completes the hook with the right status |
| PluginLife.Plugin.ExitHookReports | Plugin/saomega.cpp:88-92 | When the hook's report returns, status.txt holds "cleanshutdown" or "unexpectedshutdown" as `shuttingDown` tells, no other file has changed, and the executor is free |
| WorldSaveRuns.DeferredSaveIsNotStarved | Plugin/worldsave.cpp:106-136 | With punctual timers, from any reachable state with a save pending, an original save comes before 1260 s after the last one, whatever damage, requests, chat and respawns follow |
| WorldSaveRuns.RetryHop | Plugin/worldsave.cpp:112-120 | Each hop of the retry chain waits 1 to 60 s, with some of the 1200 s left, and leaves strictly less |
| WorldSaveRuns.TimeCanPass | Plugin/worldsave.cpp:77-130 | From every such state finitely many firings free the clock to move on, so punctuality is never an empty promise |
| WorldSaveRuns.SaveRateBound | Plugin/worldsave.cpp:72-135 | Original saves of any run, from any state, are at most 1 + elapsed/300 + forced-wait calls + calls while shutting down + 2 per respawn save armed + what the callbacks outstanding at the start may still save |
| WorldSaveRuns.StepIsPaidFor | Plugin/worldsave.cpp:72-135 | Each save is charged to an admission, a forcing call, or an armed respawn |
| WorldSaveRuns.ThrottledAreSpaced | Plugin/worldsave.cpp:111-132 | Admissions by the throttle are at least 300 s apart over any run |
| WorldSaveRuns.RespawnCanSaveTwice | Plugin/worldsave.cpp:75-81 | The factor 2 is attained: a request during the respawn delay saves, and the callback saves again |
| WorldSaveRuns.AnnouncedSaveWaitsForQuiet | Plugin/worldsave.cpp:47-126 | In any run, no save is announced within 60 s of a player's hit on a boss or 300 s of the last save |
| WorldSaveRuns.DroppedRequestIsCovered | Plugin/worldsave.cpp:111-123 | In every reachable state each pending flag has its callback outstanding; a request that neither saves nor schedules came within 300 s of the last save or has a live callback behind it |
| WorldSaveRuns.ThrottleNeedsForwardClock | Plugin/worldsave.cpp:106-113 | Within 300 s after the last save a plain request is dropped; with the clock behind the last save it saves at once iff the clock is no more than 2^64 - 1200 s behind |
| WorldSaveRuns.ShutdownSavesAtOnce | Plugin/worldsave.cpp:111-135 | While shutting down, every call of `SaveWorld` in a run reaches the original at once, and no login in the run is let in |
| WorldSaveRuns.OnlyClearingMessageEndsShutdown | Plugin/worldsave.cpp:87-99 | Of all hook steps only a "no longer shutting down" message without the 1-minute warning ends shutdown mode |
| WorldSave.SavesAtOnceExactlyWhen | Plugin/worldsave.cpp:111-135 | A call of `SaveWorld` reaches the original, with its own flag, iff it is to wait, the server is shutting down, a force is pending, or the last save is 1200 s old; otherwise nothing is saved |
| WorldSaveAnswers.PlainRequest | Plugin/worldsave.cpp:111-130 | Any other request: turned away within 300 s of the last save; announced, due at once, if no boss was hit for 60 s; else put off, unless one is pending, until the last hit is 60 s old |
| WorldSaveAnswers.FiredCallback | Plugin/worldsave.cpp:77-130 | An announced or respawn callback always saves when it fires; a deferred one iff a request would by then |
| WorldSaveAnswers.RespawnIsSaved | Plugin/worldsave.cpp:66-82 | A respawn with a character, not by login, within 480 s of the last save and with nothing pending is followed by a save within 30 s in every punctual run; any other arms nothing |
| WorldSaveAnswers.AnnouncedSaveIsMade | Plugin/worldsave.cpp:124-130 | In every punctual run an announced save is made before the clock moves |
| WorldSaveAnswers.StampIsLastHit | Plugin/worldsave.cpp:47-51 | Over any run the damage stamp is the time of the last hit on a creature of base level 1 by a causer of team 50000 or more |
| WorldSaveAnswers.ModeIsWhatMessagesSay | Plugin/worldsave.cpp:87-99 | Over any run shutdown mode is what the messages make of it: three enter it, one of them only if the message does not also take it back, one leaves it, and nothing else moves it |
| WorldSave.StepKeepsInv | Plugin/worldsave.cpp:47-136 | Every step keeps timestamps in the past and a live callback behind each pending flag |
| WorldSaveHooks.Scheduler.SaveWorldHook | Plugin/worldsave.cpp:105-137 | The save hook moves the globals, timers and history as specified, and calls the original exactly when forced to or 1200 s after the last save |
| WorldSaveHooks.Scheduler.FireTimer | Plugin/worldsave.cpp:77-130 | Each delayed callback resets its flags and calls the save hook |
| WorldSaveHooks.Scheduler.StartNewShooterPlayerHook | Plugin/worldsave.cpp:71-82 | A respawn arms one forced save under its five conditions |
| WorldSaveHooks.Scheduler.TakeDamageHook | Plugin/worldsave.cpp:47-51 | Only a player team's hit on a level-1 creature is stamped |
| WorldSaveHooks.Scheduler.ServerChatHook | Plugin/worldsave.cpp:87-103 | Chat phrases set and clear shutdown mode, and which messages are passed on |
| WorldSaveRuns.LoginsPassUntilShutdown | Plugin/worldsave.cpp:58-64 | In any run in which shutdown mode is never entered, exactly the players who arrive are let in, in their order |
| WorldSaveRuns.NoLoginAfterWarning | Plugin/worldsave.cpp:58-103 | After a 1-minute warning no run lets anyone in until a clearing message comes |
| RwLock.UnlockReleasesWhatIsHeld | libs/mysql/thr_rwlock.h:117-127 | In every interleaving `unlock` reads true iff its caller holds exclusively, and releases in the mode held |
| RwLockHolds.CallerGetsWhatItAskedFor | libs/mysql/thr_rwlock.h:73-113 | In every interleaving, from the return of `wrlock` or a successful `trywrlock` until its `unlock` the caller is alone with the lock; from that of `rdlock` or `tryrdlock` it holds it with readers only |
| RwLockHolds.WhoWaits | libs/mysql/thr_rwlock.h:73-113 | A reader waits iff someone holds exclusively, so readers share; a writer waits iff someone holds at all; the same for the `try` functions |
| RwLockHolds.NeverStuck | libs/mysql/thr_rwlock.h:73-127 | While any thread is at work or inside, one of them can take its next step |
| RwLock.FlagIsNeverRaced | libs/mysql/thr_rwlock.h:94-127 | No thread is about to write the plain flag while another is about to touch it |
| RwLock.LockIsFreeWhenAllAreOut | libs/mysql/thr_rwlock.h:73-127 | When all threads are out, lock and flag are as initialised |
| RwLock.WriterIsAlone | libs/mysql/thr_rwlock.h:94-113 | A thread that holds the lock exclusively is alone, and the flag tells where it is |
| RwLock.ReaderSeesNoFlag | libs/mysql/thr_rwlock.h:73-88 | While anyone holds shared, there is no writer and the flag is down |
| RwLock.StepKeepsInv | libs/mysql/thr_rwlock.h:73-127 | Every step keeps lock state, flag and holders in agreement |
| RwLockCalls.NativeRwLock.Tryrdlock | libs/mysql/thr_rwlock.h:83-88 | EBUSY iff held exclusively, otherwise one more reader |
| RwLockCalls.NativeRwLock.Trywrlock | libs/mysql/thr_rwlock.h:105-111 | EBUSY iff held at all, otherwise held exclusively with the flag set |
| RwLockCalls.NativeRwLock.Unlock | libs/mysql/thr_rwlock.h:117-127 | An uninterrupted unlock takes the steps of the interleaved model |
| RwLockCalls.UnlockAlone | libs/mysql/thr_rwlock.h:117-127 | Those steps undo exactly the caller's acquisition |
| ByteOrder.LoadAfterStore | libs/mysql/my_byteorder.h:45-101 | For any width, loading what was stored gives the number modulo 256^n |
| ByteOrder.StoreAfterLoad | libs/mysql/my_byteorder.h:45-101 | For any width, storing what was loaded gives the bytes back |
| ByteOrder.StoreLoadRoundTrip | libs/mysql/my_byteorder.h:45-101 | The same inside a larger buffer, at any offset, in both directions |
| ByteOrder.UInt2KorrIsLoad | libs/mysql/byte_order_generic.h:38-44 | The 2-byte shift-and-add load equals a single little-endian load |
| ByteOrder.UInt3KorrIsLoad | libs/mysql/my_byteorder.h:45-52 | The 3-byte load is the little-endian value |
| ByteOrder.UInt4KorrIsLoad | libs/mysql/byte_order_generic.h:46-54 | The 4-byte shift-and-add load equals a single little-endian load, without overflow |
| ByteOrder.UInt5KorrIsLoad | libs/mysql/my_byteorder.h:54-63 | The 5-byte load is the little-endian value |
| ByteOrder.UInt6KorrIsLoad | libs/mysql/my_byteorder.h:65-75 | The 6-byte load is the little-endian value |
| ByteOrder.UInt8KorrIsLoad | libs/mysql/byte_order_generic.h:56-69 | The 8-byte two-halves load equals a single little-endian load |
| ByteOrder.SInt3KorrExtendsSign | libs/mysql/my_byteorder.h:31-43 | The signed 3-byte load is 24-bit two's complement sign extension |
| ByteOrder.SignedThreeByteRoundTrip | libs/mysql/my_byteorder.h:31-82 | Every 24-bit signed number survives `int3store` and `sint3korr` |
| ByteOrder.OrOfDisjoint | libs/mysql/my_byteorder.h:35-41 | On bits that do not overlap, "or" is addition |
| ByteOrder.Int2Store | libs/mysql/byte_order_generic.h:76-81 | Writes the two low bytes in place and nothing else |
| ByteOrder.Int3Store | libs/mysql/my_byteorder.h:77-82 | Writes the three low bytes in place and nothing else |
| ByteOrder.Int4Store | libs/mysql/byte_order_generic.h:83-89 | Writes the four bytes in place and nothing else |
| ByteOrder.Int5Store | libs/mysql/my_byteorder.h:84-91 | Writes the five low bytes in place and nothing else |
| ByteOrder.Int6Store | libs/mysql/my_byteorder.h:93-101 | Writes the six low bytes in place and nothing else |
| ByteOrder.Int8Store | libs/mysql/byte_order_generic.h:91-97 | Two four-byte stores write the eight bytes of the number, as one little-endian store does |
| TrailingSpace.SkipTrailingSpace | libs/mysql/m_string.h:317-329 | The eight-bytes-at-a-time form returns what the byte loop returns, reading inside the buffer |
| TrailingSpace.SkipTrailingSpaceAligned | libs/mysql/m_string.h:280-310 | The aligned-word form returns the same at every address and length, reading inside the buffer and aligned |
| TrailingSpace.TrimmedStops | libs/mysql/m_string.h:326-328 | The byte loop stops right after the last byte that is not a space |
| TrailingSpace.EightSpaces | libs/mysql/m_string.h:320-323 | An eight-byte load equals 0x2020202020202020 iff all eight bytes are spaces |
| TrailingSpace.FourSpaces | libs/mysql/m_string.h:304-305 | A big-endian four-byte load equals 0x20202020 iff all four bytes are spaces |
| Timespec.DeadlineIsExact | libs/mysql/my_global.h:688-698 | Nanoseconds stay below 10^9, and the deadline is clock*100 + nsec iff the tick counter does not overflow; otherwise it is early by exactly one turn of the counter |
| Timespec.DeadlineSecIsExact | libs/mysql/my_global.h:712-715 | The seconds form is exact iff neither the product nor the tick counter overflows |
| Timespec.WaitKeepsItsLength | libs/mysql/thr_cond.h:85-94 | At the same reading the returned wait is the milliseconds requested (nsec/10^6, or one more exactly when the sub-millisecond parts carry) iff these fit 32 bits, and that modulo 2^32 otherwise |
| Timespec.WaitIsWithinAMillisecond | libs/mysql/thr_cond.h:85-94 | At any reading the result is the milliseconds left iff deadline and clock, in whole milliseconds, are less than 2^32 apart; it is then within 1 ms of the time left, and 0 when none is left |
| Timespec.FarDeadlineWraps | libs/mysql/thr_cond.h:85-94 | A deadline whose milliseconds pass 2^64 is taken for one that is 2^64 ms earlier |
| Timespec.CmpIsSignOfDifference | libs/mysql/my_global.h:724-740 | The comparison has the sign of the true difference |
| Timespec.DiffIsExact | libs/mysql/my_global.h:742-747 | The wrapped difference is the true one iff that is in the unsigned 64-bit range |
| Timespec.TimespecCell.SetTimespecNsec | libs/mysql/my_global.h:688-698 | Through the pointer: a normal time that is clock*100 + nsec iff the tick counter does not overflow |
| Timespec.TimespecCell.SetTimespec | libs/mysql/my_global.h:712-715 | Through the pointer: a normal time, exact iff neither the product nor the tick counter overflows |
| ResultCursor.IteratorsAreTheirIndices | libs/mysql++11.h:177-283 | Under any interleaving of iterator and cursor operations, every dereference returns the row at its own index, as without cursor and cache |
| ResultCursor.StepRefines | libs/mysql++11.h:951-956 | Each operation keeps every remembered row right and moves indices as the plain form does |
| ResultWalks.WholeWalks | libs/mysql++11.h:216-283 | Stepping from `begin()` with `++` sees every row once in order, and from `end()` with `--` in reverse, whatever other iterators and the cursor do |
| ResultWalks.ForwardsSeesTheRest | libs/mysql++11.h:216-219 | From any row, `*it; ++it;` sees that row and the following ones to the last |
| ResultWalks.BackwardsSeesTheRest | libs/mysql++11.h:227-230 | From any row, `--it; *it;` sees the rows before it, last to first |
| ResultWalks.OffsetIsThatFarOn | libs/mysql++11.h:248-254 | `it + n` and `it - n` are `n` rows on or back, and `it` is where it was |
| ResultWalks.PostfixYieldsTheOldRow | libs/mysql++11.h:221-225 | `it++` yields the old row and leaves `it` at the next |
| ResultWalks.SeekAndNext | libs/mysql++11.h:464-475 | `seek(k)` and `n` times `next` put the cursor at row `k + n` and touch no iterator |
| ResultWalks.OnlyFetchingMovesTheCursor | libs/mysql++11.h:275-283 | Of the iterator operations only a dereference without a remembered row moves the cursor, to its row |
| ResultWalks.FieldsAreTheRows | libs/mysql++11.h:517-535 | A tuple has its row's converted texts in their columns; what does not convert is empty, zero, or without a value |
| ResultCursor.EachAgreesWithContainer | libs/mysql++11.h:492-510 | `each` with an always-true callback shows the rows of the container in its order, iff every scalar field converts |
| ResultEach.EachNeedsTheCursor | libs/mysql++11.h:492-504 | For every callback, reading or moving the result as it likes: `each` ends having shown every row once, in order, iff at each row in its order the callback goes on (unless it is the last) and, if it goes on, has the cursor back on that row |
| ResultEach.FreshIteratorLoopsForever | libs/mysql++11.h:275-283 | A callback that dereferences a fresh `begin()` iterator is shown row 0 and then row 1 for ever, on any result of two rows or more |
| ResultEach.EachShows | libs/mysql++11.h:492-504 | Against a callback that only looks at its tuple, the turns end having shown what `Shown` says, the function the other results are about |
| ResultCalls.Result.CheckCondition | libs/mysql++11.h:331-333 | The first use stores the rows and starts the cursor; later ones change nothing |
| ResultCalls.Result.SeekTo | libs/mysql++11.h:464-468 | The cursor is at the given row |
| ResultCalls.Result.ReadFields | libs/mysql++11.h:936-956 | The descending field loop reads the tuple of the current row |
| ResultCalls.Result.Each | libs/mysql++11.h:492-504 | Shows rows in order up to and with the first declined one, and counts them |
| ResultCalls.ResultIterator.Dereference | libs/mysql++11.h:275-283 | Returns the row at the iterator's index, fetching only if nothing is remembered |
| ResultCalls.ResultIterator.SetIndex | libs/mysql++11.h:177-180 | Moving forgets the remembered row |
| ResultCalls.ResultIterator.Assign | libs/mysql++11.h:204-208 | A copy shares index and remembered row |
| ResultCalls.Traverse | libs/mysql++11.h:959-967 | A container traversal sees all rows once, in order |
| Datetime.RoundTrip | libs/polyfill/datetime.h:54-109 | Printing and reading back restores flags and printed fields, whatever was there before, the seconds truncated, iff there is a date, no time, or no printed time field is negative |
| Datetime.ReadPrinted | libs/polyfill/datetime.h:58-79 | Reading a printed number gives it back and stops right behind it |
| Datetime.ReadPrintedPadded | libs/polyfill/datetime.h:86-96 | The same for the one field that each width setting pads |
| Datetime.TextHas | libs/polyfill/datetime.h:54-56 | Which separators a printed text contains |
| DatetimeFormat.FormatIsExact | libs/polyfill/datetime.h:82-109 | The text is, and nothing else is, year-month-day, a blank, hour:minute:second, or the one part there is, where each part is the field's decimal numeral and month and hour are padded to two characters |
| DatetimeFormat.SeparatorsOfText | libs/polyfill/datetime.h:82-109 | Exactly two colons in a time, two dashes in a date beside the signs, one blank between the two, and else only digits |
| DatetimeFormat.YearOutOfRange | libs/polyfill/datetime.h:58-61 | A year that is no 32-bit number becomes the nearest limit, and every later field stays as it was |
| DatetimeFormat.NoNumberInFront | libs/polyfill/datetime.h:54-80 | A text with a dash that begins with no number leaves zero in the year and the rest as it was |
| DatetimeFormat.YearOnly | libs/polyfill/datetime.h:58-69 | A text that ends after the year fills the year only |
| DatetimeFormat.NoSeconds | libs/polyfill/datetime.h:71-80 | Seconds that are no number become zero, after an hour and a minute that are read |
| DatetimeFormat.OnlySpaceIsSkipped | libs/polyfill/datetime.h:58-79 | Of the characters that begin no number only the codes 9 to 13 and 32 are skipped; any other fails the stream |
| DatetimeFormat.WholeIsTruncated | libs/polyfill/datetime.h:104 | The printed seconds are cut off towards zero |
| DatetimeCalls.DatetimeCell.PrintSql | libs/polyfill/datetime.h:82-109 | `to_sql(false)` builds the text step by step, in the format described apart from it |
| DatetimeCalls.DatetimeCell.ParseSql | libs/polyfill/datetime.h:54-80 | `from_sql` fills the fields the text has, stream failures included |
| Experience.Hook.AddExperience | Plugin/experience.cpp:11-68 | The global is restored on return, and a whole call tree is awarded as if each call were told its parent's amount |
| Experience.Hook.Adjust | Plugin/experience.cpp:17-64 | The step-by-step computation yields the exact gift |
| Experience.AdjustedIsTheGift | Plugin/experience.cpp:17-64 | The exact amount for every call: 6, 4, 2 or 1 times what was asked by level band (at least half the parent's amount for riders), within a floor of 5000 or 20000, a limit of 200000 or 50000, and 1 to 19 times the step to the next level by band, kind and kill; untouched for all others |
| Experience.TreeIsGiven | Plugin/experience.cpp:11-68 | Every call of a tree is awarded, in order, that amount inside the call it is nested in |
| Experience.TreeIsFair | Plugin/experience.cpp:17-64 | Everywhere in a tree awards stay within 200000 (50000 for creatures), at least min(asked, floor), and for riders at least min(half the parent's amount, floor) |
| Experience.AdjustedIsMonotone | Plugin/experience.cpp:25-63 | Asking for more never gives less |

## Left out

- TaskExecutor.cpp: a second `shutdown`, which would join joined threads, and tasks that call `run` themselves, which would lock the mutex twice; exceptions not derived from `std::exception`, which end the program.
- ExitStatusWins: files that cannot be opened, text-mode line ends, and what the original exit routine does afterwards are not modelled; a report whose task throws is a separate final phase about which nothing is claimed.
- ExitCompletes: the life shown to complete the hook lets tasks on the way end as they may, by exception too; that threads which can move do move is left to the scheduler.
- Plugin/saomega.cpp: the tick file, tribe alliances, hook installation and configuration.
- Plugin/worldsave.cpp: the engine calls around the hooks; a save that `SaveWorldDisableTransfer` may request is one more request right after the chat step.
- DeferredSaveIsNotStarved: timers are taken to fire when due; a late timer delays the save by as much.
- libs/mysql/thr_rwlock.h: the reader-preferring lock further down, the POSIX branches, and fairness of the native lock.
- ByteOrder: the 2-, 4- and 8-byte signed loads, which are casts of the unsigned ones; the machine's own single loads and stores are the little-endian memory model itself.
- Timespec: the branches for compilers without `struct timespec` and for a `time_t` shorter than 64 bits.
- ResultCursor: the conversions themselves (a field either converts or does not), writing through a dereferenced tuple, results without fields, and what happens once a cursor has moved past the end.
- ResultEach: a callback is a function of the rows it has been shown and the state of the result, and it does not throw.
- Datetime: `to_sql` with a fraction, `float` rounding, and the conversions from and to `time_t`.
- DatetimeCalls.DatetimeCell.ParseSql: seconds with a fraction or an exponent are read up to it only, because texts of `to_sql(false)` have neither.
- Experience: floating-point rounding (amounts are reals), exceptions from the original, logging.
- Helpers/SafeQueue.hpp: never instantiated; it would repeat the queue facts.
- Plugin/loot.cpp, Plugin/breeding.cpp, Plugin/spyglass.cpp, Plugin/commands.cpp: one-branch facts only.

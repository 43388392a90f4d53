# Verified models of the programs' concurrent protocols and byte loops

Dafny models, with proofs, of the worked examples of the Linux programming
interface whose correctness is a statement about every interleaving of threads
and processes, or about every input:

- **Shared counters.** `UnlockedCounter` determines exactly which values two
  unsynchronised threads can leave in `glob`; `LockedCounter` shows for N
  threads under a mutex, a spinlock or a semaphore that no increment is lost.
- **Monitors.** `CondvarConsumer` (N producers, one consumer, signals sent after
  the unlock, spurious wakeups), `PollingConsumer` and the proof in
  `ConsumerRefinement` that the two show the same updates; `MultiJoin`, where
  `main` joins whichever thread has terminated while it holds the mutex.
- **Notifications that can be lost.** `SigChild` (SIGCHLD as one pending bit),
  `NotifySignal` and `NotifyThread` (one-shot `mq_notify()` registrations that
  fire only when a message arrives on an empty queue), over `MessageQueue`.
- **Servers.** `FifoSeqnum` and `FifoSeqnumServer` (rendezvous over FIFOs),
  `TcpSeqnum` (lines of text
  and a 32-bit counter that wraps around), `EpollInput` (a level-triggered loop).
- **Byte loops and parsers.** `ReadLine`, `ReadWriteN`, `TimerSpec`, `GetNum`,
  the last two over `Numerals`, which defines `strtol()`, `atoi()` and the
  printing of numbers (sections 7.22.1.4 and 7.22.1.2 of ISO C11).

## How the models are built

A concurrent program is a `State`, a predicate that says which atomic steps a
state enables, and a function that takes a step (`Runs.Machine`).  Each load,
store and system call is a step of its own; a kernel or pthread primitive is a
step with its POSIX meaning.  A run is the sequence of steps a scheduler picked,
so a lemma about all runs is a lemma about all interleavings.  Such a module has
an inductive invariant, the safety properties that follow from it, the proof
that no state before the end is stuck, and a measure that bounds the length of
every run.  The loops of these programs appear once more as methods of a class
that update its fields.  Where the contract of such a method says `Reaches`, the
loop takes the machine from one state to another, whatever the other threads,
children, senders or writers do in between, so that what is proved of all runs
is true of it.  `MultiJoin.ThreadTable.JoinTerminated` and
`CondvarConsumer.Stock.ConsumeAll` run under the mutex: nobody else can change
the data, but marked threads may signal and end while the table is scanned.  The
two servers' loops, `FifoSeqnumServer.AllocationServer.Serve` and
`TcpSeqnum.Server.Serve`, take whatever their reads may return as input, errors
included; `FifoSeqnumServer.ServeIsRun` shows that on the requests of well-behaved
clients the first of them does what the machine does.  The byte loops are
methods over arrays and over descriptors whose behaviour is an arbitrary script
of short transfers, interruptions, errors and end of file.

`dafny verify dfyconfig.toml` checks the whole project.

## Where comments and code differ

The models follow the code.

- `44-ipc-pipe-fifo/fifo_seqnum_server.c:45-47`: the comment says the server
  gives up on the client when its FIFO cannot be opened, but `errExit()` ends
  the server; `FifoSeqnum` has `ServerAborted` there and proves it unreachable
  while clients stay alive.
- `lib/read_line.c:21-27`: the buffer is said to be NUL-terminated, but when 0
  is returned at end of file nothing is written.  With `n == 1` every successful
  call returns 0, so lines and end of file look the same; with a larger buffer 0
  means end of file and nothing else does.  `ReadLine.ReadLineWithoutErrors` says
  exactly when.
- `44-ipc-pipe-fifo/fifo_seqnum_server.c:52-57` and
  `59-socket-internet/is_seqnum_sv.c:107-110`: a response that could not be
  written still uses up its range.
- `52-posix-msgqueue/mq_notify_sig.c:33-36` and
  `52-posix-msgqueue/mq_notify_thread.c:23-26` exclude a message that is already
  queued at the first registration.  The models allow it: the programs strand
  messages exactly in that case.
- `30-thread-sync/prod_condvar.c:66-73` does not look at the sign of its
  arguments or at their number, although a negative argument produces nothing
  and still lowers `totRequired`.  The consumer can wait for ever exactly when no
  argument is positive, and it can exit with more than `totRequired` units, or
  with units left over, exactly when a positive argument meets a negative one.

## Model

| member | source | states |
|---|---|---|
| `UnlockedCounter.BoundsStep` | 30-thread-sync/thread_incr.c:15-18 | every load, increment and store of either thread keeps an invariant that bounds glob and both local copies by the iterations completed, and holds a thread in its last iteration to a value of at least 2 |
| `UnlockedCounter.BoundsAlways` | 30-thread-sync/thread_incr.c:15-19 | the invariant holds after every interleaving from the start |
| `UnlockedCounter.NoOverflow` | 30-thread-sync/thread_incr.c:16-18 | neither glob nor a local copy ever leaves 0..2*loops |
| `UnlockedCounter.SoloRun` | 30-thread-sync/thread_incr.c:15-19 | k iterations of one thread alone add exactly k and leave the other thread as it was |
| `UnlockedCounter.IterationStoresItsLoad` | 30-thread-sync/thread_incr.c:16-18 | whatever the other thread does in between, an iteration leaves in glob one more than what it loaded, and changes glob only by its store |
| `UnlockedCounter.LoseIterations` | 30-thread-sync/thread_incr.c:16-18 | a thread that stores a stale copy can undo any k iterations the other has left |
| `UnlockedCounter.LoseOnBothSides` | 30-thread-sync/thread_incr.c:15-18 | a schedule exists that ends with 2*loops - a - b, for all a and b below loops |
| `UnlockedCounter.OutcomesExact` | 30-thread-sync/thread_incr.c:32-46 | the value printed can be v if and only if 2 <= v <= 2*loops, or v is 1 or 2 when loops is 1 |
| `UnlockedCounter.CompleteRunLength` | 30-thread-sync/thread_incr.c:15-19 | no run exceeds six steps per loop count, and the runs of that length are exactly those in which both threads can be joined |
| `UnlockedCounter.Memory.Iterate` | 30-thread-sync/thread_incr.c:16-18 | one iteration with the other thread running in between is a run of the machine, and adds exactly one when undisturbed |
| `UnlockedCounter.Memory.ThreadFunc` | 30-thread-sync/thread_incr.c:9-22 | the loop, with any steps of the other thread before its loads and stores, is a run of the machine from start to end of this thread |
| `LockedCounter.InvStep` | 30-thread-sync/thread_incr_mutex.c:15-29 | every step of N threads keeps: lock room plus threads inside is one, glob is the number of stores, local copies inside are current |
| `LockedCounter.MutualExclusion` | 30-experimental/thread_incr_spinlock.c:17-29 | at most one thread is between acquire and release in every reachable state |
| `LockedCounter.UnlockedByOwner` | 30-thread-sync/thread_incr_mutex.c:16-28 | the mutex is owned by exactly the thread inside, so only its owner unlocks it |
| `LockedCounter.SemaphoreBalance` | 53-posix-semaphore/thread_incr_psem.c:17-29 | the semaphore's value and the number of threads inside always add up to one |
| `LockedCounter.GlobCountsIncrements` | 30-thread-sync/thread_incr_mutex.c:20-26 | the lock is free exactly when no thread is inside, and then glob is the number of completed iterations |
| `LockedCounter.NoLostUpdate` | 53-posix-semaphore/thread_incr_psem.c:16-30 | whenever all N threads have ended, glob is N*loops |
| `LockedCounter.TwoThreads` | 30-thread-sync/thread_incr_mutex.c:42-56 | the program as shipped always prints 2*loops |
| `LockedCounter.NoDeadlock` | 30-experimental/thread_incr_spinlock.c:15-30 | a reachable state is stuck if and only if all threads have ended |
| `LockedCounter.RunsEnd` | 30-thread-sync/thread_incr_mutex.c:15-29 | runs are at most N*5*loops steps long, and end with all threads joined exactly at that length |
| `LockedCounter.Memory.Step` | 53-posix-semaphore/thread_incr_psem.c:16-30 | one step of a thread updates lock, glob and thread as the machine does, or changes nothing if it is blocked or has ended |
| `LockedCounter.Memory.RunProgram` | 53-posix-semaphore/thread_incr_psem.c:41-64 | whatever the schedule, the program ends with all threads joined and glob equal to N*loops |
| `CondvarConsumer.InvStep` | 30-thread-sync/prod_condvar.c:33-109 | each step of a producer or the consumer, and each spurious wakeup, keeps the whole invariant: mutex ownership, counts, and a pending signal for a sleeping consumer with units available |
| `CondvarConsumer.Conservation` | 30-thread-sync/prod_condvar.c:42-97 | units produced are those consumed plus those available, in every reachable state |
| `CondvarConsumer.NoLostWakeup` | 30-thread-sync/prod_condvar.c:44-50 | a consumer asleep while units are available implies a producer that has yet to signal, although signals are sent after the unlock |
| `CondvarConsumer.SpuriousWakeupSleepsAgain` | 30-thread-sync/prod_condvar.c:85-89 | a spurious wakeup with nothing available takes the mutex, re-tests and leads back to the same sleep |
| `CondvarConsumer.ExitCounts` | 30-thread-sync/prod_condvar.c:101-109 | at exit at least totRequired units have been consumed, and without negative arguments exactly that many with none left over |
| `CondvarConsumer.CanConsumeEverything` | 30-thread-sync/prod_condvar.c:80-109 | for any arguments with a unit to produce some schedule exits with every unit consumed |
| `CondvarConsumer.ExitCountsExact` | 30-thread-sync/prod_condvar.c:66-109 | every reachable exit has numConsumed equal to totRequired and avail 0 if and only if no argument is negative, or none is positive and there is no exit |
| `CondvarConsumer.NegativeArgument` | 30-thread-sync/prod_condvar.c:66-70 | with the arguments -1 and 2 totRequired is 1 and the program can exit with 2 units consumed |
| `CondvarConsumer.NoDeadlock` | 30-thread-sync/prod_condvar.c:80-113 | with at least one unit to produce no reachable state before exit is deadlocked, even if spurious wakeups never happen |
| `CondvarConsumer.DeadlockExact` | 30-thread-sync/prod_condvar.c:66-89 | a deadlock is reachable if and only if the arguments ask for no unit |
| `CondvarConsumer.MeasureStep` | 30-thread-sync/prod_condvar.c:33-109 | every step except a spurious wakeup lowers a measure of the work left |
| `CondvarConsumer.RunsEnd` | 30-thread-sync/prod_condvar.c:80-113 | the length of a run is bounded by the units, the arguments and its spurious wakeups |
| `CondvarConsumer.CompleteRuns` | 30-thread-sync/prod_condvar.c:80-115 | with a unit to produce, a run that nothing but a spurious wakeup could prolong has exited with at least what was required, and exactly that without negative arguments |
| `CondvarConsumer.Stock.ConsumeAll` | 30-thread-sync/prod_condvar.c:93-102 | the inner loop moves all available units to numConsumed and sets done as the source does, as a run of the machine |
| `ConsumerRefinement.SleepStep` | 30-thread-sync/prod_condvar.c:85-89 | going to sleep is matched by one whole empty polling round that changes nothing observable |
| `ConsumerRefinement.Step` | 30-thread-sync/prod_no_condvar.c:78-104 | each step of the condition-variable program is matched by polling steps to the corresponding state with the same update, if any |
| `ConsumerRefinement.TranslatedRun` | 30-thread-sync/prod_no_condvar.c:35-104 | a whole run translates into a polling run with the same sequence of updates |
| `ConsumerRefinement.Refinement` | 30-thread-sync/prod_condvar.c:80-113 | every run of the condition-variable program, spurious wakeups included, has a polling run from the same arguments with the same updates of avail and numConsumed in the same order |
| `ConsumerRefinement.BackStep` | 30-thread-sync/prod_no_condvar.c:35-104 | each polling step is matched by steps of the condition-variable program: an idle round by none, an unlock by unlock and signal |
| `ConsumerRefinement.BackRun` | 30-thread-sync/prod_no_condvar.c:35-104 | a whole polling run translates back, without spurious wakeups, with the same updates |
| `ConsumerRefinement.ReverseRefinement` | 30-thread-sync/prod_condvar.c:33-113 | every polling run has a run of the condition-variable program from the same arguments, without spurious wakeups, with the same updates, that exits if the polling run does |
| `ConsumerRefinement.UpdatesAreUnits` | 30-thread-sync/prod_no_condvar.c:44-90 | in every run units are produced and consumed one at a time |
| `ConsumerRefinement.SameUpdates` | 30-thread-sync/prod_condvar.c:80-113 | the two programs show the same set of update sequences, each unit by unit, over all runs and over those that exit, with or without spurious wakeups |
| `MultiJoin.InvStep` | 30-thread-sync/thread_multijoin.c:35-107 | every step of a worker or of main keeps mutex ownership, both counters against the table, the join history and the pending signal |
| `MultiJoin.CountersMatchTable` | 30-thread-sync/thread_multijoin.c:9-12 | whenever the mutex is free, numUnjoined counts the TS_TERMINATED entries and numLive those that are not TS_JOINED |
| `MultiJoin.NoLostWakeup` | 30-thread-sync/thread_multijoin.c:38-46 | main asleep with numUnjoined > 0 implies a thread between its increment and its signal |
| `MultiJoin.SpuriousWakeupSleepsAgain` | 30-thread-sync/thread_multijoin.c:82-87 | a spurious wakeup without a terminated thread takes the mutex, re-tests and leads back to the same sleep |
| `MultiJoin.JoinNeedsNoMutex` | 30-thread-sync/thread_multijoin.c:91-94 | the join done under the mutex waits only for a thread whose next step, possible at once, is its last, and that was not joined before |
| `MultiJoin.JoinedExactlyOnce` | 30-thread-sync/thread_multijoin.c:90-109 | no thread is ever joined twice, and at exit each has ended and was joined once |
| `MultiJoin.NoDeadlock` | 30-thread-sync/thread_multijoin.c:76-107 | no reachable state before exit is stuck, even without spurious wakeups |
| `MultiJoin.MeasureStep` | 30-thread-sync/thread_multijoin.c:76-107 | every step except a spurious wakeup lowers a measure, also across rounds that find only some of the threads |
| `MultiJoin.RunsEnd` | 30-thread-sync/thread_multijoin.c:76-109 | the length of a run is bounded by the number of threads and of spurious wakeups |
| `MultiJoin.CompleteRuns` | 30-thread-sync/thread_multijoin.c:76-109 | a run that nothing but a spurious wakeup could prolong has exited with every thread joined once |
| `MultiJoin.ScanStartsOk` | 30-thread-sync/thread_multijoin.c:90-91 | whenever the program scans, the counters match the table and every marked thread has at most its signal left to send: what JoinTerminated requires |
| `MultiJoin.JoinOne` | 30-thread-sync/thread_multijoin.c:91-101 | the body of the scan's if statement, step by step, joins and marks one thread, waiting in the join for its signal if need be, and lowers both counters |
| `MultiJoin.ThreadTable.JoinTerminated` | 30-thread-sync/thread_multijoin.c:90-102 | from every state in which the program scans, with marked threads signalling meanwhile or not: the terminated entries, and no others, become joined, their threads have ended, numLive is lowered by their number and numUnjoined to 0, as a run of the machine |
| `SigChild.InvStep` | 26-process-watch/multi_SIGCHLD.c:43-113 | every step of main, the handler or a child keeps the invariant that no dead child is unannounced and each counted wakeup consumed a bit set by a death of its own |
| `SigChild.NoStrandedZombie` | 26-process-watch/multi_SIGCHLD.c:43-48 | a dead child that has not been waited for implies a pending SIGCHLD or an unfinished reaping loop |
| `SigChild.LiveCount` | 26-process-watch/multi_SIGCHLD.c:47 | numLiveChildren is the number of children minus the number reaped, in every reachable state |
| `SigChild.SuspendedMeansRunning` | 26-process-watch/multi_SIGCHLD.c:83-110 | a parent suspended with nothing pending waits for a child that is still running |
| `SigChild.ExitsWhenAllReaped` | 26-process-watch/multi_SIGCHLD.c:109-118 | the loop ends only when every child has been reaped |
| `SigChild.SigCntBounds` | 26-process-watch/multi_SIGCHLD.c:109-113 | sigCnt never exceeds the number of children and is at least 1 at the end, handler invocations that reap nothing included |
| `SigChild.CountsWakeups` | 26-process-watch/multi_SIGCHLD.c:109-113 | in every run from every state sigCnt grows by exactly the number of times the run wakes the parent, a handler invocation still in progress being counted when it is over |
| `SigChild.PrintsWakeups` | 26-process-watch/multi_SIGCHLD.c:71-116 | from the start sigCnt is the number of wakeups of the run itself, so that is what is printed |
| `SigChild.PrintedCountsExact` | 26-process-watch/multi_SIGCHLD.c:115-116 | the counts that can be printed for n children are exactly 1 to n |
| `SigChild.NoDeadlock` | 26-process-watch/multi_SIGCHLD.c:109-113 | only the state after exit is stuck |
| `SigChild.RunsEnd` | 26-process-watch/multi_SIGCHLD.c:90-113 | every run has at most 9n + 3 steps |
| `SigChild.CompleteRuns` | 26-process-watch/multi_SIGCHLD.c:109-118 | a run that cannot go on has exited with all n children reaped and a count of 1 to n |
| `SigChild.Parent.WaitPid` | 26-process-watch/multi_SIGCHLD.c:43 | a non-blocking wait, with children dying around it: a positive result is a child now reaped, 0 means that all the rest are running, -1 that none is left, and both leave no dead child |
| `SigChild.Parent.SigchldHandler` | 26-process-watch/multi_SIGCHLD.c:28-57 | the handler, whatever deaths fall between its calls, is a run of the machine to a state without dead children, with numLiveChildren kept right |
| `MessageQueue.InsertOrder` | 52-posix-msgqueue/mq_notify_sig.c:97 | a message sent goes behind those of its priority and leaves the order of all others alone |
| `MessageQueue.AccountedSend` | 52-posix-msgqueue/mq_notify_sig.c:97 | sending keeps: sent is received plus queued, as multisets and in order within each priority |
| `MessageQueue.AccountedReceive` | 52-posix-msgqueue/mq_notify_sig.c:97-98 | so does receiving the head of the queue |
| `NotifySignal.InvStep` | 52-posix-msgqueue/mq_notify_sig.c:83-102 | every step of the program or of a sender keeps the protocol and message invariant |
| `NotifySignal.StrandedExactly` | 52-posix-msgqueue/mq_notify_sig.c:33-36 | the program sleeps with a message queued and no signal coming if and only if one was queued at the first registration |
| `NotifySignal.LateCanHappen` | 52-posix-msgqueue/mq_notify_sig.c:33-36 | one message sent before the first registration strands it |
| `NotifySignal.LateNeverWakes` | 52-posix-msgqueue/mq_notify_sig.c:34-35 | in that case the program never moves or receives again, whatever is sent |
| `NotifySignal.SuspendedMeansQuiet` | 52-posix-msgqueue/mq_notify_sig.c:88-89 | otherwise suspension with no signal pending means an empty queue and an active registration |
| `NotifySignal.RegistrationNeverBusy` | 52-posix-msgqueue/mq_notify_sig.c:93-94 | mq_notify() never finds an existing registration, so errExit() is never called there |
| `NotifySignal.NothingLostOrReordered` | 52-posix-msgqueue/mq_notify_sig.c:97-98 | sent is received plus queued, each priority is received in the order of sending, and the head of the queue has the highest priority |
| `NotifySignal.ReceivesHighest` | 52-posix-msgqueue/mq_notify_sig.c:97-98 | each receive takes exactly one queued message, and one of the highest priority queued |
| `NotifySignal.StepsBounded` | 52-posix-msgqueue/mq_notify_sig.c:88-102 | a run has at most five steps per message sent, and one more |
| `NotifySignal.ComesToRest` | 52-posix-msgqueue/mq_notify_sig.c:88-102 | without further messages, and unless a message was queued at the first registration, the program gets from any state after that registration to rest, with everything received and the registration active |
| `NotifySignal.Process.HandleNotification` | 52-posix-msgqueue/mq_notify_sig.c:91-101 | the loop body, with messages arriving before each of its calls, is a run of the machine from re-registration to suspension that ends with a pending signal or an empty queue and a registration |
| `NotifyThread.InvStep` | 52-posix-msgqueue/mq_notify_thread.c:52-92 | every step of main, a sender or any of the overlapping threads keeps the protocol and message invariant |
| `NotifyThread.OneRegistration` | 52-posix-msgqueue/mq_notify_thread.c:64-77 | the registration is active and no thread is before its notifySetup(), or it is inactive and exactly one thread is; mq_notify() never fails |
| `NotifyThread.StrandedExactly` | 52-posix-msgqueue/mq_notify_thread.c:23-26 | a queued message without a thread left to read it means exactly that one was queued at the first registration |
| `NotifyThread.LateCanHappen` | 52-posix-msgqueue/mq_notify_thread.c:23-26 | one message sent before the first registration strands it |
| `NotifyThread.LateNeverWakes` | 52-posix-msgqueue/mq_notify_thread.c:24-25 | in that case no thread is ever started |
| `NotifyThread.NothingLostOrReordered` | 52-posix-msgqueue/mq_notify_thread.c:55-56 | each message sent is received once or still queued, in order within each priority, however the threads overlap |
| `NotifyThread.ReceivesHighest` | 52-posix-msgqueue/mq_notify_thread.c:55-56 | each receive of any thread takes exactly one queued message, and one of the highest priority queued |
| `NotifyThread.StepsBounded` | 52-posix-msgqueue/mq_notify_thread.c:43-61 | a run has at most four steps per message sent, and one more |
| `NotifyThread.AtRest` | 52-posix-msgqueue/mq_notify_thread.c:55-61 | unless a message was queued at the first registration: when all threads have ended, everything sent has been received and the registration is active |
| `NotifyThread.Process.Notify` | 52-posix-msgqueue/mq_notify_thread.c:52 | the re-registration of a thread always succeeds |
| `NotifyThread.Process.ReceiveAfter` | 52-posix-msgqueue/mq_notify_thread.c:55 | one receive of a thread, after anything the others do, is a run of the machine, and EAGAIN ends the thread |
| `NotifyThread.Process.ThreadFunc` | 52-posix-msgqueue/mq_notify_thread.c:30-62 | the notification function, with anything the others do before each of its calls, is a run of the machine to the end of this thread |
| `FifoSeqnum.InvStep` | 44-ipc-pipe-fifo/fifo_seqnum_server.c:17-58 | every step of the server or of any client keeps the invariant over FIFOs, queued requests, data in flight and grants |
| `FifoSeqnum.TilesPartition` | 44-ipc-pipe-fifo/fifo_seqnum_server.c:51-57 | ranges that start where the one before ends cover each number of the interval once and no other |
| `FifoSeqnum.GrantsPartition` | 44-ipc-pipe-fifo/fifo_seqnum_server.c:36-57 | at the loop head exactly the numbers from 0 to seqNum - 1 are granted, each to one request |
| `FifoSeqnum.ClientsAsStarted` | 44-ipc-pipe-fifo/fifo_seqnum_client.c:36 | in every state the clients are those started, each with the length it was started with, and the server FIFO holds no more requests than it can |
| `FifoSeqnum.GrantsAsAsked` | 44-ipc-pipe-fifo/fifo_seqnum_server.c:51-57 | every grant is to one of the clients and of the length that client was started with |
| `FifoSeqnum.NoOverflow` | 44-ipc-pipe-fifo/fifo_seqnum_server.c:57 | seqNum stays between 0 and the sum of the lengths the clients were started with |
| `FifoSeqnum.FirstComeFirstServed` | 44-ipc-pipe-fifo/fifo_seqnum_server.c:37-57 | in every run the clients answered, the one at hand and those queued are, in this order, the clients in the order in which the run has them write |
| `FifoSeqnum.LastGrant` | 44-ipc-pipe-fifo/fifo_seqnum_server.c:51-57 | between the response and the update of seqNum the last grant is the current request's, from seqNum |
| `FifoSeqnum.RepliesReachRequesters` | 44-ipc-pipe-fifo/fifo_seqnum_client.c:47-54 | what a client prints is the start of the one range granted to its own process number, of the length it was started with |
| `FifoSeqnum.NoErrors` | 44-ipc-pipe-fifo/fifo_seqnum_server.c:26-47 | the server never sees end of file, never misses a client's FIFO or reader, and no client reads end of file |
| `FifoSeqnum.ErrorsWouldBeFatal` | 44-ipc-pipe-fifo/fifo_seqnum_server.c:37-47 | what those errors would lead to: a missing client FIFO ends the server, a read without a whole request is discarded, a client that reads end of file fails and removes its FIFO |
| `FifoSeqnum.Rendezvous` | 44-ipc-pipe-fifo/fifo_seqnum_server.c:22-27 | the server gets past its first open only when some client has come to open the well-known FIFO, and a client past its open only when the server has |
| `FifoSeqnum.FailsOnlyWithoutServer` | 44-ipc-pipe-fifo/fifo_seqnum_client.c:38-40 | when the well-known FIFO exists from the start no client ever fails |
| `FifoSeqnum.FailsOnlyBeforeServer` | 44-ipc-pipe-fifo/fifo_seqnum_client.c:38-40 | a step makes a client fail if and only if it is that client's open of the well-known FIFO while there is none, and then the server has not reached its mkfifo() |
| `FifoSeqnum.FailureExactly` | 44-ipc-pipe-fifo/fifo_seqnum_server.c:17-19 | some client can fail if and only if the well-known FIFO is missing at the start |
| `FifoSeqnum.NoDeadlock` | 44-ipc-pipe-fifo/fifo_seqnum_client.c:35-52 | as long as the server FIFO can hold one request, no state with an unfinished client is stuck, although the opens on both sides block on each other |
| `FifoSeqnum.RunsEnd` | 44-ipc-pipe-fifo/fifo_seqnum_client.c:25-55 | every run has at most 15 steps per client, and four more |
| `FifoSeqnum.CompleteRuns` | 44-ipc-pipe-fifo/fifo_seqnum_client.c:38-55 | a run that cannot go on leaves every client with its reply, or failed if the well-known FIFO was missing at the start, and the server waiting; with no client failed, seqNum is the sum of all lengths asked for |
| `FifoSeqnumServer.AllocationServer.Serve` | 44-ipc-pipe-fifo/fifo_seqnum_server.c:36-58 | for every input the loop grants consecutive ranges to exactly the accepted requests in their order, sends each start whose write succeeds, keeps the range of a failed write used up, and aborts exactly at a FIFO that does not open |
| `FifoSeqnumServer.ReadByRead` | 44-ipc-pipe-fifo/fifo_seqnum_server.c:37-57 | each kind of read in turn: discarded, it grants and sends nothing; whole, it is granted and answered if the write succeeds; with a FIFO that does not open nothing more is granted |
| `FifoSeqnumServer.ResponsesAreStarts` | 44-ipc-pipe-fifo/fifo_seqnum_server.c:50-57 | every response sent is the start of a range granted to that client, and if no write before the first FIFO that does not open fails, each grant is answered in order |
| `FifoSeqnumServer.AllAnsweredExactly` | 44-ipc-pipe-fifo/fifo_seqnum_server.c:44-53 | as many responses get through as requests are granted if and only if every write before the first client FIFO that does not open succeeds |
| `FifoSeqnumServer.GrantsDetermined` | 44-ipc-pipe-fifo/fifo_seqnum_server.c:51-57 | the accepted requests and the starting number determine the grants and the final seqNum |
| `FifoSeqnumServer.AnswerOne` | 44-ipc-pipe-fifo/fifo_seqnum_server.c:37-57 | one turn of the loop is a run of the machine that grants the first queued request the next range, waiting if it must for that client's open |
| `FifoSeqnumServer.ServeIsRun` | 44-ipc-pipe-fifo/fifo_seqnum_server.c:36-58 | from every loop head reached, whatever is queued, the machine runs to a loop head with nothing queued and has made the grants that Serve's contract gives for these requests |
| `FifoSeqnumServer.ServeAnswersClients` | 44-ipc-pipe-fifo/fifo_seqnum_server.c:50-54 | and each queued request gets one response, to its client, with the start that client is then granted |
| `Numerals.StrtolSound` | lib/get_num.c:62 | whatever strtol() consumes is a numeral of the grammar, with the value it returns |
| `Numerals.StrtolComplete` | lib/get_num.c:62 | every numeral of the grammar is consumed entirely with its value, if what follows does not prolong it |
| `Numerals.RenderCorrect` | 59-socket-internet/is_seqnum_sv.c:106 | printed digits are digits of the base, denote the number and have no leading zero |
| `Numerals.CharacterTable` | lib/get_num.c:62 | the digits by name in every base up to 16, in both cases, and the space characters |
| `Numerals.ValueConcatenate` | lib/get_num.c:62 | digits count by position |
| `Numerals.LonePrefix` | lib/get_num.c:58-62 | of a 0x without a hexadecimal digit after it only the zero is read |
| `Numerals.AtoiRoundTrip` | lib/itimerspec_from_str.c:42 | atoi() reads back every printed decimal, whatever follows that is not a digit |
| `GetNum.DenotesScanned` | lib/get_num.c:58-67 | in each base the whole argument is a numeral of value v exactly when strtol() consumes all of it and returns v |
| `GetNum.GetLongExactly` | lib/get_num.c:48-83 | getLong() returns v exactly for the numerals of value v in the base that the bits 0100, 0200 and 0400 ask for, in this order of precedence, within 64 bits and of a sign that the bits 01 and 02 allow |
| `GetNum.GetIntExactly` | lib/get_num.c:88-99 | getInt() returns v exactly for the numerals of value v in that base, within 32 bits and of an allowed sign |
| `GetNum.Rejections` | lib/get_num.c:63-96 | which complaint a numeral meets: beyond long, negative under 01, not positive under 02, beyond int, in this order, or none |
| `GetNum.NoNumeral` | lib/get_num.c:55-67 | a missing or empty argument and any other that is no numeral are refused, the latter as overflow if its first digits overflow and as non-numeric otherwise |
| `GetNum.RoundTripFixedBase` | lib/get_num.h:23-26 | an int printed in decimal is read back without a flag for the base, in octal under 0200 and in hexadecimal under 0400 |
| `GetNum.RoundTripHexPrefix` | lib/get_num.c:58-62 | so is a hexadecimal one with its 0x, under 0400 or 0100 |
| `GetNum.RoundTripDetectsDecimal` | lib/get_num.h:24 | under 0100 a printed decimal is detected as such |
| `GetNum.RoundTripDetectsOctal` | lib/get_num.h:24 | and one with a leading zero as octal |
| `TimerSpec.Strchr` | lib/itimerspec_from_str.c:34 | the pointer is to the first such character of the string, or NULL if there is none |
| `TimerSpec.CutString` | lib/itimerspec_from_str.c:35-36 | a NUL written into a string leaves the part before it in place and the part after it one position on |
| `TimerSpec.SplitByCutting` | lib/itimerspec_from_str.c:38-43 | reading the two pieces after the slash has been overwritten gives what splitting at the first slash gives |
| `TimerSpec.ParseByCutting` | lib/itimerspec_from_str.c:34-48 | overwriting the first colon leaves the two halves the grammar splits the string into |
| `TimerSpec.ParseTime` | lib/itimerspec_from_str.c:38-43 | cutting and reading in place gives the split of the string and touches nothing outside it |
| `TimerSpec.ParseHalves` | lib/itimerspec_from_str.c:38-54 | the second half is still intact when the first has been cut, so both give their split |
| `TimerSpec.SplitJoined` | lib/itimerspec_from_str.c:38-43 | a time is split at its first slash, whatever follows it |
| `TimerSpec.ParseJoined` | lib/itimerspec_from_str.c:34-53 | a setting is split at its first colon, whatever follows it |
| `TimerSpec.ItimerspecFromStr` | lib/itimerspec_from_str.c:27-56 | for every NUL-terminated string the four fields are those of the pure split on the grammar, and the caller's string is unchanged |
| `TimerSpec.RoundTripWith` | lib/itimerspec_from_str.c:23-26 | for any conversion that reads printed numbers back, parsing a printed setting returns it if and only if the parts left out are zero |
| `TimerSpec.RoundTrip` | lib/itimerspec_from_str.c:23-56 | and so for atoi(), for every choice of the optional parts |
| `ReadLine.LineIsShortestPrefix` | lib/read_line.c:44-68 | without errors a line is the shortest prefix of the bytes that ends in a newline, or all of them, and the rest follows |
| `ReadLine.FailsExactly` | lib/read_line.c:47-51 | reading a line fails exactly when an error comes before its newline, at the first such error, and consumes nothing after it |
| `ReadLine.ReadLine` | lib/read_line.c:28-72 | for every placement of EINTR, errors and end of file: exactly one line is consumed, its first min(len, n-1) bytes are stored with a NUL except when 0 is returned at end of file, the rest of the buffer is untouched, and -1 means an error or no room |
| `ReadLine.ReadLineWithoutErrors` | lib/read_line.c:53-71 | without read errors and with n of at least 2, 0 is returned if and only if no byte is left; a NUL is written if and only if there is a newline, or a byte and n is at least 2, and otherwise the buffer is left as it was |
| `ReadLine.LinesPartition` | lib/read_line.c:44-71 | the lines of an input without errors concatenate to all of its bytes, each has its newline at its end, and only the last may have none |
| `ReadLine.ReadAllLines` | lib/read_line.c:28-72 | on an input without errors and with n of at least 2, calls until 0 is returned give every line, cut to n-1 bytes, use up the stream, and concatenate back to it when n exceeds every line length |
| `ReadLine.OneByteBuffer` | lib/read_line.c:53-71 | with n = 1 and no errors every call returns 0, and at end of file without writing the NUL |
| `ReadWriteN.Readn` | lib/rdwrn.c:7-31 | the buffer gets exactly what was taken from the stream, fewer than n bytes only if those were all; -1 is returned at the first error met and only then, and events beyond it are not consumed |
| `ReadWriteN.Writen` | lib/rdwrn.c:35-57 | all n bytes are appended, or at the first error or return of 0 met, and only then, -1 is returned with exactly a proper prefix of them |
| `ReadWriteN.WriteThenRead` | lib/rdwrn.c:15-56 | writing n bytes and reading n is the identity, for every chunking and placement of EINTR |
| `ReadWriteN.WriteThenReadOther` | lib/rdwrn.c:18-26 | reading another amount gives the first bytes written, or all of them, and leaves the rest |
| `TcpSeqnum.Server.constructor` | 59-socket-internet/is_seqnum_sv.c:29 | any int may be the start: seqNum holds it modulo 2^32 and prints it back |
| `TcpSeqnum.Server.ReadText` | 59-socket-internet/is_seqnum_sv.c:95-98 | a request is skipped exactly when its line is missing or fails, otherwise the text is its first 29 bytes up to a NUL |
| `TcpSeqnum.Server.ReadLength` | 59-socket-internet/is_seqnum_sv.c:95-104 | a length is granted exactly for a text whose value is positive |
| `TcpSeqnum.Server.Handle` | 59-socket-internet/is_seqnum_sv.c:94-110 | an accepted request gets seqNum as signed text and moves it on modulo 2^32, whether or not the write succeeds; a rejected one changes and sends nothing |
| `TcpSeqnum.Server.Turn` | 59-socket-internet/is_seqnum_sv.c:78-113 | one turn of the loop grants at seqNum or changes nothing, a failed accept() included |
| `TcpSeqnum.Server.Serve` | 59-socket-internet/is_seqnum_sv.c:78-113 | over every sequence of connections the accepted requests, and no others, get consecutive ranges modulo 2^32, and each connection is sent the text of its number or nothing |
| `TcpSeqnum.ReplyNamesRange` | 59-socket-internet/is_seqnum_sv.c:106-110 | each accepted request is granted a range of its length, at its place among the accepted ones, and the number sent is where that range starts |
| `TcpSeqnum.GrantedOnce` | 59-socket-internet/is_seqnum_sv.c:106-110 | while the lengths total at most 2^32 exactly the numbers up to the total are granted, each once, across the wrap-around |
| `TcpSeqnum.DisjointExactly` | 59-socket-internet/is_seqnum_sv.c:110 | consecutive ranges are disjoint if and only if their lengths total at most 2^32 |
| `TcpSeqnum.ReplyFits` | 59-socket-internet/is_seqnum.h:9 | every reply fits in a buffer of INT_LEN bytes |
| `TcpSeqnum.ToInt32Is` | 59-socket-internet/is_seqnum_sv.c:106 | what %d makes of a uint32_t is an int equal to it modulo 2^32 |
| `TcpSeqnum.LineIs` | lib/read_line.c:44-68 | a stream that begins with one line of text has that as its first line, wherever reads are interrupted |
| `TcpSeqnum.RequestIs` | 59-socket-internet/is_seqnum_sv.c:95-104 | whatever first line a client sends, with a newline or up to the end of its input: it is refused if what atoi() makes of its first 29 bytes is not positive, and otherwise that is the length asked for |
| `TcpSeqnum.NoLineRefused` | 59-socket-internet/is_seqnum_sv.c:95-98 | an input without a byte, or with a read error before its first line ends, is refused |
| `TcpSeqnum.BadLinesRefused` | 59-socket-internet/is_seqnum_sv.c:100-104 | a line that does not begin with a number, and every printed number up to 0, is refused |
| `TcpSeqnum.RefusedGetsNothing` | 59-socket-internet/is_seqnum_sv.c:83-104 | over all connections, one that failed, sent no line or sent such a line is sent nothing and adds no range |
| `TcpSeqnum.RequestUnderstood` | 59-socket-internet/is_seqnum_cl.c:52-56 | every decimal numeral a client may give as its argument, of up to 29 characters and with a positive int value, is accepted as that value |
| `TcpSeqnum.RequestAndReply` | 59-socket-internet/is_seqnum_cl.c:51-65 | over all connections, a client that sends a numeral of value v and receives what the server writes to it reads the start of a range of v numbers granted to it |
| `TcpSeqnum.ClientsShareNothing` | 59-socket-internet/is_seqnum_sv.c:100-110 | two accepted clients are granted different ranges, without a common number while the lengths total at most 2^32 |
| `TcpSeqnum.ReadReply` | 59-socket-internet/is_seqnum_cl.c:58-65 | the client recovers the whole reply line, whose value is seqNum read as a signed 32-bit int |
| `EpollInput.InvStep` | 63-io-advanced/epoll_input.c:39-78 | every step of the program or of a writer keeps the invariant, and with it what is still true of events reported earlier |
| `EpollInput.OpenCount` | 63-io-advanced/epoll_input.c:73-75 | numOpenFds is the number of open descriptors, and each is closed at most once |
| `EpollInput.ClosedOnlyWhenDrained` | 63-io-advanced/epoll_input.c:60-76 | what was read is a prefix of what was written; a descriptor is closed only when it is all of it and nobody can write any more |
| `EpollInput.OutputAsMeant` | 63-io-advanced/epoll_input.c:60-64 | what is read of a FIFO is, from the start of every run, a prefix of what was in it and what its writers meant to write |
| `EpollInput.InterruptionWaitsAgain` | 63-io-advanced/epoll_input.c:43-45 | an interrupted epoll_wait() is called again |
| `EpollInput.Limits` | 63-io-advanced/epoll_input.c:5-7 | one call reports at most five events, and one read returns at most 1000 bytes |
| `EpollInput.ReadsSomething` | 63-io-advanced/epoll_input.c:60-64 | the read for a reported EPOLLIN never blocks and never meets end of file, although the report may be out of date |
| `EpollInput.EverythingReadAtExit` | 63-io-advanced/epoll_input.c:39-81 | at exit each descriptor has been closed once and all bytes ever written have been read in order |
| `EpollInput.NoDeadlock` | 63-io-advanced/epoll_input.c:42-47 | before exit some step other than an interruption is always possible |
| `EpollInput.EventMeasure` | 63-io-advanced/epoll_input.c:53-77 | acting on a reported event lowers the measure of unread bytes and open descriptors |
| `EpollInput.RunsEnd` | 63-io-advanced/epoll_input.c:39-78 | with finite input the length of a run is bounded up to interruptions of epoll_wait() |
| `EpollInput.CompleteRuns` | 63-io-advanced/epoll_input.c:39-81 | a run that nothing but an interruption of epoll_wait() could prolong has exited with all input read and every descriptor closed once |
| `EpollInput.Monitor.HandleOne` | 63-io-advanced/epoll_input.c:60-76 | one event, after anything the writers do meanwhile, is handled as a run of the machine |
| `EpollInput.Monitor.HandleEvents` | 63-io-advanced/epoll_input.c:53-77 | the whole list of events is handled as a run of the machine that keeps the invariant, with writers going on in between |

## Left out

- Weak memory in the unlocked counter: loads and stores of the single word are taken to be sequentially consistent.
- Printing, prompts, sleeping, real time, usage errors and the error-reporting library; `errExit()` appears only as an outcome that ends the program.
- The internals of the kernel, pthread and the C library: each primitive is an atomic step with its POSIX meaning, and failures of `pthread_create()`, `fork()`, `malloc()`, `strdup()` and of lock operations do not occur.
- Spinning is modelled as blocking until the spinlock is free.
- SIGCHLD from children that stop or continue, and senders of NOTIFY_SIG other than the kernel.
- Client crashes and reused process numbers in the FIFO protocol: a client's process number is its position, and it stays alive until it is answered.
- The 32-bit `seqNum` of the FIFO server: `FifoSeqnum.NoOverflow` bounds it by the sum of the lengths, and what happens beyond an int is undefined in C.
- Partial writes and partial reads of the small FIFO requests, which are below PIPE_BUF; anything but a whole request is the `Discarded` case of the server's loop.
- Sockets, addresses and `getaddrinfo()`; a connection is the input it delivers and whether the reply can be written.
- FifoSeqnumServer.AllocationServer.Serve: takes its requests as a list of what the reads return; how clients act between them is in the machine, to which FifoSeqnumServer.ServeIsRun ties it for clients that stay alive.
- TcpSeqnum.Server.Serve: requires the values of the requests to fit in an int, beyond which `atoi()` is undefined in C.
- TimerSpec.ItimerspecFromStr: is parametric in the conversion of a piece, so it holds also where `atoi()` is undefined; RoundTrip instantiates it with `atoi()` on unbounded numbers.
- The polling consumer has no safety theorems of its own; what it shows is tied to the other consumer by `ConsumerRefinement.SameUpdates`.
- EPOLLERR, which reading ends of FIFOs do not report, and files other than FIFOs.
- CondvarConsumer.Stock.ConsumeAll: covers the inner loop of main, which runs under the mutex; the outer loop and the producers are in the machine only.
- The creation and the outer loops of `main` in the other monitor and notification programs, which are in the machines only.
- Demonstrations that make one system call, or a fixed sequence of them, and have no loop or interleaving to reason about: region locking, terminals, memory mappings, daemons, job control.
- `pipe_sync.c`, `self_pipe.c`, `fork_sig_sync.c` and `thread_cleanup.c`, each of which synchronises once, and the echo servers, which copy bytes between descriptors.
- The imitation of `system()`, which restores the disposition of SIGQUIT from the one saved for SIGINT (27-process-execute/system.c:63-64).

# Verified models of the operating-systems laboratory programs

The laboratory programs teach threads, semaphores, FIFOs and sockets in C. This project models the ones
whose point is a protocol (semaphores over shared state, or byte loops over an unreliable kernel) and
proves what the programs are for. Every protocol is a machine whose steps are single accesses to shared
state (`sem_wait`, `sem_post`, a load, a store, a `read`, a `write`), with a program point per thread or
process. Schedules, thread counts, buffer sizes, iteration counts, addresses returned by `malloc`, lengths
of short reads and writes, interruptions and timeouts are all arbitrary, and the main results quantify over
all of them. Blocked and refused steps are `None`.

`dafny verify dfyconfig.toml` checks everything.

| file | program |
|---|---|
| `Ring`, `RingRuns`, `RingExact` | the circular buffer of lab05, in its four versions: which sides take a mutex is a parameter |
| `Deposit`, `DepositRuns`, `DepositExact` | the running balance and what is printed |
| `Buffers`, `Program` | the lab05 programs as shared variables and an array updated in place, proved against the machines above |
| `Logger`, `LoggerRuns`, `LoggerProgress`, `LoggerCalls` | the logging echo server of lab11: a ring of heap strings |
| `RingMap`, `LogServer` | the same server in place, with bare addresses in its slots: what the program sees of the machine |
| `Recap`, `RecapRuns`, `RecapLog`, `RecapProgram`, `Tally` | the recap program: fork, barrier, rounds, shutdown, tally; `RecapProgram` is the in-place form |
| `Counter`, `CounterExact` | the racy counter of lab02, with wrap-around |
| `Accumulators` | its repaired version |
| `Scheduler`, `Limiter`, `SendLoop` | two work items per permit; the connection limiter; the servers' send loop |
| `Copy` | the block copy of lab06, with real buffers and descriptors |
| `Chat`, `ChatShutdown`, `ChatProgram` | the two-way chat of lab10, over sockets or FIFOs |
| `Echo`, `EchoProgram` | the FIFO echo pair of lab09 |
| `Sums`, `Bytes` | sums over threads and modular arithmetic; bytes, partial transfers and lines on a wire |

## Exact conditions

Where a property one would expect of the code does not always hold, the code is kept and the exact condition
is proved, in both directions.

- The buffer is a queue in every run if and only if each side has its mutex, or one thread, or the buffer has
  one slot, or (for readers) nothing is ever produced: `RingExact.FifoExactly`. `LostItem` and `DoubleRead`
  are the failing runs the comments in the source describe.
- The balance is exact if and only if consumers share a mutex, or there is one, or nothing is produced:
  `DepositExact.DepositExactly`. One slot is *not* enough here, although it is for the queue.
- The copy leaves the tail of a longer old destination: faithful if and only if the old file was no longer than
  the source, `Copy.FaithfulExactly`.
- The servers test `ret == 1 && errno == EINTR` where `ret == -1` is meant. The peer is only ever sent a prefix of
  the message, and the loop makes a bounded number of sends, if and only if errno is not EINTR on entry or the
  message is empty: `SendLoop.PrefixExactly`, `SendLoop.TerminatesExactly`. Otherwise one-byte sends repeat the
  first byte without end, `SendLoop.Flooded`; a real interruption ends the handler, `SendLoop.InterruptionKills`.
- The number of lost adds that the counter program reports is right whatever is lost if and only if nothing can be
  lost, or the increment is positive and the expected value does not overflow: `CounterExact.ReportExactly`.
- A handler of the connection limiter that exits through an error never posts. The server can serve another
  connection if and only if fewer permits have leaked than it started with, `Limiter.ServesExactly`.
- The echo client sends nothing for an empty line and then waits for a reply. Under any splitting of reads and writes,
  some run leaves it waiting for ever if and only if an empty line is typed before QUIT, `Echo.HangsExactly`; a
  waiting client waits for ever if and only if its line was empty and all else has come back, `Echo.WaitsForEver`.
- When four bytes QUIT are read on their own out of other lines, the echo process leaves, and the client, at its next
  read with nothing left or its next write, exits with failure. It can fail in no other way, `Echo.ExitsExplained`;
  `Echo.FragmentQuits` is a run that does.
- Both FIFO programs say the opens must be in the same order: that is exactly right, `Echo.OpensExactly`.

## Model

| member | source | states |
|---|---|---|
| Ring.StepTokens | lab05-producer-consumer/many_prod_many_cons.c:74-116 | every step of every variant keeps empty_count + fill_count + tokens held at each program point = size, items stored = items loaded + fill_count + tokens in flight, and each mutex + its holders = 1 |
| Ring.Exclusive | lab05-producer-consumer/many_prod_many_cons.c:77-84 | at most one thread of a guarded side is between taking its token or mutex and moving on: by mutex, by being alone, or by the buffer having one slot |
| Ring.StoreSlot | lab05-producer-consumer/many_prod_many_cons.c:81-81 | the slot a producer is about to store to is (number stored so far) mod size, and is free |
| Ring.LoadSlot | lab05-producer-consumer/many_prod_many_cons.c:107-107 | the slot a consumer is about to load holds the oldest unread item |
| Ring.StepInv | lab05-producer-consumer/many_prod_many_cons.c:70-117 | every step keeps tokens, index alignment and the queue window |
| RingRuns.RunInv | lab05-producer-consumer/many_prod_many_cons.c:66-118 | so does every schedule, from any such state, and no thread appears or disappears |
| RingRuns.InitInv | lab05-producer-consumer/many_prod_many_cons.c:129-143 | the initialisation in main establishes all of it for every size >= 1 and any number of threads |
| RingRuns.StepRefinesQueue | lab05-producer-consumer/many_prod_many_cons.c:70-117 | refinement: each step is one enqueue on a queue with room, one dequeue of its head, or nothing |
| RingRuns.NoOverwrite | lab05-producer-consumer/many_prod_many_cons.c:81-82 | a producer about to store never aims at a slot holding an unread item |
| RingRuns.NoCollision | lab05-producer-consumer/many_prod_many_cons.c:81-107 | nor at the slot a consumer is about to load |
| RingRuns.SomeoneCanStep | lab05-producer-consumer/many_prod_many_cons.c:74-115 | deadlock freedom in every reachable state, with or without mutexes |
| RingRuns.Throughput | lab05-producer-consumer/many_prod_many_cons.c:70-117 | every schedule, fair or not, delivers: a run of n steps has loaded at least (n - 10 size - 4 threads)/20 items |
| RingRuns.ProgramOrder | lab05-producer-consumer/many_prod_many_cons.c:72-81 | each producer's items are stored once each in the order it made them, all but the one in hand; a consumer's log is exactly what it loaded |
| RingRuns.RunMakes | lab05-producer-consumer/many_prod_many_cons.c:72-72 | a producer's items are exactly those its making steps bring, in their order |
| RingRuns.BlocksExactly | lab05-producer-consumer/many_prod_many_cons.c:74-105 | a thread is held up by nothing but a semaphore at zero: its counting semaphore, or its mutex once it has a token |
| RingRuns.SafeRunIsFifo | lab05-producer-consumer/one_prod_many_cons.c:64-107 | in every run of a guarded variant, items loaded are a prefix of items stored and unread items still lie in their slots |
| RingExact.LostItem | lab05-producer-consumer/one_prod_many_cons.c:19-25 | without write_mutex and with two producers, a run stores 1 and 2 and keeps only 2 |
| RingExact.DoubleRead | lab05-producer-consumer/many_prod_one_cons.c:23-25 | without read_mutex and with two consumers, a run reads 1 twice |
| RingExact.FifoExactly | lab05-producer-consumer/one_prod_one_cons.c:46-81 | all reachable states are queues if and only if each side is guarded |
| Deposit.RandomTransaction | lab05-producer-consumer/many_prod_many_cons.c:50-62 | the amount is non-zero and within the maximum; a draw from the lower half is a deposit, from the upper half a withdrawal, and the draw can be recovered from the amount |
| Deposit.EveryAmountDrawn | lab05-producer-consumer/many_prod_many_cons.c:53-60 | and every such amount is drawn by some rand() result |
| DepositRuns.BankStepInv | lab05-producer-consumer/many_prod_many_cons.c:99-116 | every step keeps: deposit = sum of the loaded items but the one being added; printed = the due balances but the one being settled |
| DepositRuns.BankRunInv | lab05-producer-consumer/many_prod_one_cons.c:93-109 | so does every schedule of every variant |
| DepositRuns.RunDraws | lab05-producer-consumer/many_prod_many_cons.c:70-72 | in every run a producer's items are the amounts it draws, in the order it draws them |
| DepositRuns.BalanceOfRun | lab05-producer-consumer/many_prod_many_cons.c:107-110 | printed balances are INITIAL_DEPOSIT plus exact sums of prefixes in write order, at most one item behind; the balance at rest is exact; its magnitude is at most MAX_TRANSACTION per item |
| DepositRuns.NextPrint | lab05-producer-consumer/many_prod_many_cons.c:108-110 | for every size: the next print comes ten items later, or sooner where the index wraps, and none in between |
| DepositRuns.PrintGaps | lab05-producer-consumer/many_prod_many_cons.c:108-110 | with 128 slots: ten apart, except eight closing each lap |
| DepositRuns.BankCanStep | lab05-producer-consumer/one_prod_one_cons.c:64-82 | the whole program, balance included, never deadlocks |
| DepositRuns.BankThroughput | lab05-producer-consumer/one_prod_one_cons.c:45-82 | and delivers under every schedule: at least (n - 10 size - 4 threads)/24 items in n steps |
| DepositExact.LostUpdate | lab05-producer-consumer/many_prod_one_cons.c:97-106 | two consumers without read_mutex, any buffer size: a run loads 1 and 2 and leaves a balance of 1 |
| DepositExact.DepositExactly | lab05-producer-consumer/many_prod_many_cons.c:105-107 | the balance at rest is the sum of the loaded items in every run if and only if consumers share a mutex, or there is one, or no producer |
| Buffers.Buffer.constructor | lab05-producer-consumer/many_prod_many_cons.c:129-143 | the globals start as the machine's initial state |
| Buffers.Buffer.StoreSlot | lab05-producer-consumer/many_prod_many_cons.c:81-81 | the array store is the machine's step |
| Buffers.Buffer.ProducerEnter | lab05-producer-consumer/many_prod_many_cons.c:72-81 | each step up to the store is the machine's step, or blocks exactly when it does |
| Buffers.Buffer.ProducerLeave | lab05-producer-consumer/many_prod_many_cons.c:82-88 | each step after the store is the machine's step |
| Buffers.Buffer.LoadSlot | lab05-producer-consumer/many_prod_many_cons.c:107-107 | the array load is the machine's step |
| Buffers.Buffer.ConsumerEnter | lab05-producer-consumer/many_prod_many_cons.c:99-107 | as ProducerEnter, for consumers |
| Buffers.Buffer.ConsumerLeave | lab05-producer-consumer/many_prod_many_cons.c:108-116 | as ProducerLeave, for consumers |
| Buffers.Buffer.Advance | lab05-producer-consumer/many_prod_many_cons.c:66-118 | the next step of any thread of any variant is the machine's step |
| Program.Globals.constructor | lab05-producer-consumer/many_prod_many_cons.c:33-44 | the program starts valid |
| Program.Globals.BalanceStep | lab05-producer-consumer/many_prod_many_cons.c:107-110 | each access of the balance update and print is the machine's step |
| Program.Globals.Advance | lab05-producer-consumer/many_prod_many_cons.c:66-118 | a step of any thread keeps the whole invariant and is the machine's step |
| Program.Globals.Play | lab05-producer-consumer/many_prod_many_cons.c:66-118 | playing a schedule in place is the machine's run, up to the first blocked step |
| LoggerRuns.LogStepInv | lab11-echoserver-process-thread/ES-MT-Logger/echo_server_mt_logger.c:42-111 | every step keeps: each string in one place, heap = exactly the strings not yet freed, file = text of the freed strings plus the written part of the one in hand |
| LoggerRuns.LogRunInv | lab11-echoserver-process-thread/ES-MT-Logger/echo_server_mt_logger.c:42-111 | so does every run |
| LoggerRuns.LiveAtAccess | lab11-echoserver-process-thread/ES-MT-Logger/echo_server_mt_logger.c:88-105 | whenever the logger reads or frees its string, the string is live, is the allocation that was stored (not a reuse of its address) and holds the caller's text |
| LoggerRuns.LogContents | lab11-echoserver-process-thread/ES-MT-Logger/echo_server_mt_logger.c:88-105 | for every run, address choice and schedule of short or interrupted writes, the file is the whole messages in slot order plus a prefix of the current one; no allocation is stored twice, though addresses may be reused |
| LoggerRuns.WindowOwnsItsStrings | lab11-echoserver-process-thread/ES-MT-Logger/echo_server_mt_logger.c:63-64 | the unread slots hold distinct pointers to distinct live strings |
| LoggerRuns.DrainedHeapEmpty | lab11-echoserver-process-thread/ES-MT-Logger/echo_server_mt_logger.c:44-105 | when all calls have returned and the buffer is drained, the heap is empty and the file holds every message |
| LoggerProgress.WriterCanStep | lab11-echoserver-process-thread/ES-MT-Logger/echo_server_mt_logger.c:92-105 | inside the write loop a step that writes all that is left, measures the message or frees it is possible |
| LoggerProgress.LogCanStep | lab11-echoserver-process-thread/ES-MT-Logger/echo_server_mt_logger.c:56-108 | the server never wedges: some step that changes the state is always possible, interruptions and empty writes not counted |
| LoggerProgress.LogThroughput | lab11-echoserver-process-thread/ES-MT-Logger/echo_server_mt_logger.c:42-111 | every schedule delivers: the steps of a run that change the state are at most 22 per message freed, plus the bytes in the file, plus 10 size + 4 callers + 25 |
| LoggerProgress.StoredIsFreed | lab11-echoserver-process-thread/ES-MT-Logger/echo_server_mt_logger.c:94-108 | the k-th stored message has been written and freed once such steps exceed a bound fixed by the messages up to it |
| LoggerRuns.CallOrder | lab11-echoserver-process-thread/ES-MT-Logger/echo_server_mt_logger.c:56-70 | each caller's messages are stored in the order of its calls, all but the one in hand |
| LoggerCalls.StoredAsSaid | lab11-echoserver-process-thread/ES-MT-Logger/echo_server_mt_logger.c:42-63 | in every run the strings a caller has stored are exactly the messages it was called with, each with a line terminator, in order, all but the one in hand |
| LoggerCalls.AnyWriteGoesOn | lab11-echoserver-process-thread/ES-MT-Logger/echo_server_mt_logger.c:94-103 | the write loop goes on from any number of bytes taken and from an interruption, and the bytes taken are the next ones of the message |
| RingMap.StepMap | lab11-echoserver-process-thread/ES-MT-Logger/echo_server_mt_logger.c:56-89 | data independence: renaming the items commutes with every step, so addresses in the slots behave as allocation numbers do |
| LogServer.MallocSeen | lab11-echoserver-process-thread/ES-MT-Logger/echo_server_mt_logger.c:44-45 | allocating and formatting the message, seen through addresses |
| LogServer.InHandSeen | lab11-echoserver-process-thread/ES-MT-Logger/echo_server_mt_logger.c:88-105 | the address in the logger's hands is that of the block its pointer names |
| LogServer.Server.constructor | lab11-echoserver-process-thread/ES-MT-Logger/echo_server_mt_logger.c:25-35 | the globals start valid |
| LogServer.Server.Call | lab11-echoserver-process-thread/ES-MT-Logger/echo_server_mt_logger.c:42-71 | a step of my_log on the buffer of addresses and the heap is the machine's step, and keeps the invariant |
| LogServer.Server.Drain | lab11-echoserver-process-thread/ES-MT-Logger/echo_server_mt_logger.c:73-111 | so is a step of the logger thread |
| LogServer.Server.WriteOut | lab11-echoserver-process-thread/ES-MT-Logger/echo_server_mt_logger.c:92-105 | one turn of the write loop through the address, or the free after it |
| RecapRuns.StepInv | lab04-recap+named-semaphore/recap/riepilogo.c:95-294 | every step keeps the semaphore balances, the shape of every child's round and the count of log entries per child |
| RecapRuns.RunInv | lab04-recap+named-semaphore/recap/riepilogo.c:95-294 | so does every run |
| RecapRuns.Barrier | lab04-recap+named-semaphore/recap/riepilogo.c:132-143 | while any child has yet to post ready, no child is past the gate, no thread exists and the log is empty |
| RecapRuns.OneWriter | lab04-recap+named-semaphore/recap/riepilogo.c:100-116 | at most one thread of all processes is in the critical section |
| RecapRuns.ShutdownRounds | lab04-recap+named-semaphore/recap/riepilogo.c:245-277 | a child exits only after the end post and at least one round, and starts at most one round after that post |
| RecapRuns.FinalLog | lab04-recap+named-semaphore/recap/riepilogo.c:162-166 | when main has reaped, every child has exited and the log holds exactly m * rounds(i) entries for child i |
| RecapLog.RunAppends | lab04-recap+named-semaphore/recap/riepilogo.c:106-109 | the log is append-only: every run only adds to it, namely the ids of the children whose threads wrote, in order |
| RecapLog.LogFollowsEntries | lab04-recap+named-semaphore/recap/riepilogo.c:100-116 | in every run the log lists the children in the order in which their threads entered the critical section, but for one about to write |
| RecapLog.AtMostOneMoreRound | lab04-recap+named-semaphore/recap/riepilogo.c:245-277 | from any moment after the end post each child starts at most one more round in the whole rest of the run |
| RecapRuns.WindingDown | lab04-recap+named-semaphore/recap/riepilogo.c:154-165 | after the end post every step of anyone uses up exactly one of a finite number of remaining steps |
| RecapRuns.SomeoneCanStep | lab04-recap+named-semaphore/recap/riepilogo.c:128-277 | until main has reported, someone can step |
| RecapRuns.ShutdownTerminates | lab04-recap+named-semaphore/recap/riepilogo.c:151-166 | from the end post on every run is bounded, and one that cannot go on has reported with every child well ended |
| RecapProgram.System.constructor | lab04-recap+named-semaphore/recap/riepilogo.c:296-300 | the system starts valid |
| RecapProgram.System.NewRound | lab04-recap+named-semaphore/recap/riepilogo.c:245-249 | a new round clears the thread handles in place |
| RecapProgram.System.CreateOrJoin | lab04-recap+named-semaphore/recap/riepilogo.c:253-267 | the create and join loops over the thread cells |
| RecapProgram.System.Parent | lab04-recap+named-semaphore/recap/riepilogo.c:128-166 | the parent's next step in place is the machine's |
| RecapProgram.System.Offspring | lab04-recap+named-semaphore/recap/riepilogo.c:227-294 | a child's next step in place is the machine's |
| RecapProgram.System.Worker | lab04-recap+named-semaphore/recap/riepilogo.c:95-126 | a thread's next step in place is the machine's |
| RecapProgram.System.Advance | lab04-recap+named-semaphore/recap/riepilogo.c:95-294 | any party's next step keeps the invariant |
| Tally.AccessStats | lab04-recap+named-semaphore/recap/riepilogo.c:169-182 | the counting loop gives each child's number of log entries |
| Tally.Busiest | lab04-recap+named-semaphore/recap/riepilogo.c:189-196 | the reported id is the smallest index with the maximum count, and -1 for no children |
| Tally.Report | lab04-recap+named-semaphore/recap/riepilogo.c:168-197 | from any final state, main names the smallest child that ran the most rounds, with m times its rounds as accesses |
| Counter.RunScales | lab02-performance-thread/concurrent_threads.c:13-18 | a run adding v in 64-bit arithmetic is the run adding 1, scaled |
| Counter.UnitBounds | lab02-performance-thread/concurrent_threads.c:13-18 | at least 2 of the n*m adds survive every complete run with n, m >= 2 (1 if m = 1, all if n = 1), and at most n*m |
| Counter.Program.Access | lab02-performance-thread/concurrent_threads.c:15-16 | one access of the racy add in place is the machine's step |
| Counter.Program.Play | lab02-performance-thread/concurrent_threads.c:13-18 | a schedule played in place is the machine's run |
| CounterExact.Attained | lab02-performance-thread/concurrent_threads.c:13-18 | for n, m >= 2 every number of survivors from 2 to n*m is reached by some run |
| CounterExact.Outcomes | lab02-performance-thread/concurrent_threads.c:10-43 | the exact set of final values, for all n, m and v, wrap-around included |
| CounterExact.AddsUpExactly | lab02-performance-thread/concurrent_threads.c:42-47 | for all n, m and every int v: reported losses times v plus the final value is n*m*v, whatever the run, if and only if v = 0, or n*m = 0, or v >= 1 and n*m*v does not overflow |
| CounterExact.ReportExactly | lab02-performance-thread/concurrent_threads.c:42-47 | for all n, m and every int v: the report is right whatever is lost if and only if n <= 1, or m = 0, or v >= 1 and n*m*v does not overflow |
| Accumulators.PoolRun | lab02-performance-thread/sol-concurrent_threads.c:34-79 | every run keeps the cells exact and uses up one remaining step per step |
| Accumulators.PoolCanStep | lab02-performance-thread/sol-concurrent_threads.c:76-79 | no run sticks before the sum is complete |
| Accumulators.CellsAndThreads | lab02-performance-thread/sol-concurrent_threads.c:34-66 | in every run a thread not yet created has done nothing, and each cell holds its own thread's adds |
| Accumulators.SumIsExpected | lab02-performance-thread/sol-concurrent_threads.c:75-83 | for every interleaving of workers with main, the run is bounded and computed_value ends as n*m*v |
| Accumulators.Program.Access | lab02-performance-thread/sol-concurrent_threads.c:36-37 | an access of a thread's own cell, in place |
| Accumulators.Program.Advance | lab02-performance-thread/sol-concurrent_threads.c:60-79 | a step of the create and join-and-sum loops, in place |
| Scheduler.StepInv | lab03-thread+scheduler/scheduler_solution.c:31-59 | every step keeps permits + holders = resources and each client's items in order, two per permit |
| Scheduler.RunInv | lab03-thread+scheduler/scheduler_solution.c:25-118 | so does every run, spawning included; holders never exceed the resources |
| Scheduler.FinishedClient | lab03-thread+scheduler/scheduler_solution.c:31-61 | a finished client did items 0..tasks-1 once each, with ceil(tasks/2) acquisitions |
| Scheduler.SomeoneCanRun | lab03-thread+scheduler/scheduler_solution.c:33-53 | while a client is unfinished, some client can step |
| Scheduler.EveryoneFinishes | lab03-thread+scheduler/scheduler_solution.c:31-65 | without further spawning runs are bounded, end with all clients done and all permits back |
| Scheduler.RunTasks | lab03-thread+scheduler/scheduler_solution.c:101-114 | the clients are those spawned, in order, and none ever changes its number of items |
| Scheduler.AllItemsDone | lab03-thread+scheduler/scheduler_solution.c:31-114 | once all are done, client c did items 0 to (tasks of the c-th spawn) - 1 once each, with half as many acquisitions, rounded up |
| Scheduler.BlocksExactly | lab03-thread+scheduler/scheduler_solution.c:31-33 | a client is held up by nothing but the semaphore at zero, at the top of its loop with items left |
| Scheduler.ClientThread.Work | lab03-thread+scheduler/scheduler_solution.c:40-50 | the two work items and the skip of the second on an odd end, on the thread's own variable |
| Scheduler.Program.Start | lab03-thread+scheduler/scheduler_solution.c:101-118 | spawning a client in place is the machine's step |
| Scheduler.Program.Advance | lab03-thread+scheduler/scheduler_solution.c:31-59 | a client's next step in place is the machine's, and keeps the invariant |
| Limiter.StepAddsUp | lab11-echoserver-process-thread/ES-MP-LimitConn/multiprocess.c:205-224 | every step keeps permits + handlers at work + handlers lost = MAX_CONCURRENCY |
| Limiter.RunAddsUp | lab11-echoserver-process-thread/ES-MP-LimitConn/multiprocess.c:195-233 | in every run, and handlers at work never exceed what the losses leave |
| Limiter.RunIsItsEvents | lab11-echoserver-process-thread/ES-MP-LimitConn/multiprocess.c:77-118 | in every run each handler ends as its own events say: a normal exit gives its permit back, an exit through an error does not; permits, handlers and leaks follow the numbers of events |
| Limiter.LoopOrder | lab11-echoserver-process-thread/ES-MP-LimitConn/multiprocess.c:195-224 | the server accepts, takes a permit and forks, in that order, over and over |
| Limiter.WedgedForever | lab11-echoserver-process-thread/ES-MP-LimitConn/multiprocess.c:80-118 | with every permit leaked no further connection is ever handled |
| Limiter.CanServeAnother | lab11-echoserver-process-thread/ES-MP-LimitConn/multiprocess.c:195-224 | with a permit left, some run handles another connection |
| Limiter.ServesExactly | lab11-echoserver-process-thread/ES-MP-LimitConn/multiprocess.c:117-118 | the server can serve another connection if and only if not every permit has leaked |
| Limiter.Listener.AcceptLoop | lab11-echoserver-process-thread/ES-MP-LimitConn/multiprocess.c:195-233 | a step of the accept loop in place is the machine's |
| Limiter.Listener.Finish | lab11-echoserver-process-thread/ES-MP-LimitConn/multiprocess.c:77-118 | a handler's post, or its exit without one, in place |
| SendLoop.RunOk | lab11-echoserver-process-thread/ES-MP-LimitConn/multiprocess.c:77-82 | at every point bytes on the wire = bytes_sent + repeats, and they are the message's prefix if nothing was repeated |
| SendLoop.FinishedLoop | lab11-echoserver-process-thread/ES-MP-LimitConn/multiprocess.c:101-106 | a finished loop has sent msg_len + k bytes, k the one-byte sends taken for interruptions, and the message exactly when k = 0 |
| SendLoop.PrefixExactly | lab11-echoserver-process-thread/ES-MT-Logger/echo_server_mt_logger.c:135-140 | in every run, finished or not, the peer is sent a prefix of the message if and only if errno is not EINTR on entry or the message is empty |
| SendLoop.Flooded | lab11-echoserver-process-thread/ES-MT-Logger/echo_server_mt_logger.c:137-137 | with errno at EINTR, k one-byte sends put the first byte on the wire k times and bytes_sent stays 0 |
| SendLoop.CleanLoopDelivers | lab11-echoserver-process-thread/ES-MP-LimitConn/multiprocess.c:77-82 | with a clean errno and no error: at most one send per byte, and a run that can go no further has delivered exactly the message |
| SendLoop.TerminatesExactly | lab11-echoserver-process-thread/ES-MP-LimitConn/multiprocess.c:101-106 | error-free runs are bounded if and only if errno is not EINTR on entry or the message is empty |
| SendLoop.RepeatsExactly | lab11-echoserver-process-thread/ES-MP-LimitConn/multiprocess.c:77-82 | with errno at EINTR the loop repeats exactly the one-byte sends and counts the others; with a clean errno it counts all |
| SendLoop.ReceivedExactly | lab11-echoserver-process-thread/ES-MP-LimitConn/multiprocess.c:88-94 | a receive loop outlasts interruptions and gives all the bytes of the first other call; it exits if that is an error or an end of file, and waits if there is none |
| SendLoop.StaleExactly | lab11-echoserver-process-thread/ES-MT-Logger/echo_server_mt_logger.c:146-152 | a receive loop that ends with a message leaves errno at EINTR if and only if it was there or the first recv was interrupted |
| SendLoop.EveryArrivalHasItsTurn | lab11-echoserver-process-thread/ES-MP-LimitConn/multiprocess.c:85-107 | the conversation stops only at a receive that gets nothing or at the quit command |
| SendLoop.EchoExactly | lab11-echoserver-process-thread/ES-MP-LimitConn/multiprocess.c:85-107 | turn k of a conversation begun with a clean errno has to send all that the k-th receive got, and sends only prefixes of it if and only if no receive up to it was interrupted |
| SendLoop.NeverFinishes | lab11-echoserver-process-thread/ES-MT-Logger/echo_server_mt_logger.c:164-169 | with errno at EINTR and one byte to go the loop never finishes |
| SendLoop.InterruptionKills | lab11-echoserver-process-thread/ES-MP-LimitConn/multiprocess.c:79-80 | an interrupted send ends the handler |
| SendLoop.SendLoop | lab11-echoserver-process-thread/ES-MP-LimitConn/multiprocess.c:76-82 | the loop over the buffer is a run of the machine, as far as the kernel's results go |
| Copy.Descriptor.Read | lab06-cpoy+timeserver/copy/copy.c:42-48 | a short, interrupted or failed read: what lands in the buffer and the new offset |
| Copy.Descriptor.Write | lab06-cpoy+timeserver/copy/copy.c:84-90 | a short, interrupted or failed write: the new contents and offset |
| Copy.PatchedTwice | lab06-cpoy+timeserver/copy/copy.c:68-94 | writing in pieces is writing at once |
| Copy.FillBlock | lab06-cpoy+timeserver/copy/copy.c:23-60 | the read loop terminates with a full block, or with all that was left |
| Copy.DrainBlock | lab06-cpoy+timeserver/copy/copy.c:65-94 | the write loop terminates with the block written, or with the part before an error |
| Copy.CopyBlock | lab06-cpoy+timeserver/copy/copy.c:22-95 | one round moves the copied prefix forward by the block |
| Copy.OntoItself | lab06-cpoy+timeserver/copy/copy.c:115-123 | copying a file over its own beginning changes nothing |
| Copy.PerformCopy | lab06-cpoy+timeserver/copy/copy.c:19-98 | for every block size and every schedule with finitely many interruptions, two files or one file opened twice, the copy terminates; the destination is the source followed by the old contents beyond its length, or after an error a copied prefix |
| Copy.FaithfulExactly | lab06-cpoy+timeserver/copy/copy.c:119-123 | that is the source itself if and only if the old file was no longer |
| Chat.NextByte | lab10-chat-socket+fifo/chat-socket.c:62-77 | framing: the next byte off the wire is the next byte of the line being read |
| Chat.SendKeeps | lab10-chat-socket+fifo/chat-socket.c:102-134 | a step of sendMessage keeps: wire = complete lines plus the sent part of the current one; BYE is last; at most one line after shouldStop |
| Chat.ReceiveKeeps | lab10-chat-socket+fifo/chat-socket.c:39-89 | a step of receiveMessage keeps: what was read is whole lines of the peer plus part of the next |
| Chat.RunInv | lab10-chat-socket+fifo/chat-fifo.c:45-138 | every run of both endpoints keeps both halves |
| Chat.HeardWhatWasSent | lab10-chat-socket+fifo/chat-fifo.c:85-95 | no line is handled before it was completely sent |
| Chat.ChatIsOrderly | lab10-chat-socket+fifo/chat-socket.c:39-134 | for every run and split: lines printed are a prefix of the lines the peer completed, BYE excluded; nothing is sent after one's own BYE; at most one line is completed after shouldStop is set |
| ChatShutdown.StopSpreads | lab10-chat-socket+fifo/chat-socket.c:68-89 | an endpoint never stops alone: the peer has stopped, has just sent its own BYE, holds the BYE, or has bytes left and a receiver to read them |
| ChatShutdown.AtMostOneMoreLine | lab10-chat-socket+fifo/chat-socket.c:102-134 | from any moment at which an endpoint has stopped, the whole rest of the run completes at most the line it was sending and puts nothing else on its wire |
| ChatShutdown.AnySendGoesOn | lab10-chat-socket+fifo/chat-socket.c:121-126 | the send loop goes on from any number of bytes taken, and the bytes are the next ones of the line |
| ChatShutdown.StepWinds | lab10-chat-socket+fifo/chat-socket.c:39-134 | with shouldStop set at both ends every step that changes anything uses up what is left |
| ChatShutdown.EndedOrMoves | lab10-chat-socket+fifo/chat-fifo.c:45-138 | until both receivers are gone and each sender is gone or waits for its user, some step changes something |
| ChatShutdown.StopArrives | lab10-chat-socket+fifo/chat-socket.c:39-89 | from any moment at which one end has stopped, the other's receiver takes fewer than 3 (bytes unread + BUFFER_SIZE) + 3 steps before its own flag is set, and until then it can go on or its sender is about to set the flag |
| ChatShutdown.ChatEnds | lab10-chat-socket+fifo/chat-socket.c:39-137 | in every run: the stop reaches the other end within that bound; once at both ends at most 4 BUFFER_SIZE + 10 steps change anything, and then only users are waited for |
| ChatProgram.Endpoint.ReceiveStep | lab10-chat-socket+fifo/chat-socket.c:39-89 | a step of receiveMessage over its real buffer is the machine's step; no byte lands outside the buffer |
| ChatProgram.Endpoint.RecvByte | lab10-chat-socket+fifo/chat-socket.c:63-76 | the byte extends the line in the buffer, the newline ends it |
| ChatProgram.Endpoint.HandleLine | lab10-chat-socket+fifo/chat-socket.c:81-88 | comparing length and prefix is comparing the line with BYE |
| ChatProgram.Endpoint.SendStep | lab10-chat-socket+fifo/chat-socket.c:102-134 | a step of sendMessage in place is the machine's step |
| Echo.OpensExactly | lab09-fifo-logger/EchoFIFO/echo.c:62-67 | in every schedule both processes get through all their opens if and only if they open the FIFOs in the same order |
| Echo.SameSoFar | lab09-fifo-logger/EchoFIFO/client.c:32-37 | they get through every common prefix of their opens |
| Echo.RunKeepsOrder | lab09-fifo-logger/EchoFIFO/echo.c:81-142 | in every run what the echo process has written is a prefix of the welcome followed by what it was sent |
| Echo.RunKeepsSent | lab09-fifo-logger/EchoFIFO/client.c:66-93 | in every run the client has written its lines in order, the last up to where its loop stands or was cut off |
| Echo.ReceivedInOrder | lab09-fifo-logger/EchoFIFO/client.c:53-123 | for every split of reads and writes: bytes received are a prefix of the welcome and the bytes sent, and those of what was typed |
| Echo.RunLockstep | lab09-fifo-logger/EchoFIFO/client.c:66-123 | with whole delivery one line at a time is in flight, in every state of every run |
| Echo.RepliesAreLines | lab09-fifo-logger/EchoFIFO/client.c:112-122 | with whole delivery reply k is line k and neither process leaves with failure |
| Echo.WhyStuck | lab09-fifo-logger/EchoFIFO/client.c:70-97 | a stuck pair waits for the user, has quit, or waits for the reply to an empty line |
| Echo.DeadlocksExactly | lab09-fifo-logger/EchoFIFO/client.c:76-112 | with whole delivery some run deadlocks if and only if an empty line is typed before QUIT |
| Echo.WaitsForEver | lab09-fifo-logger/EchoFIFO/client.c:86-119 | for every splitting: a client waiting for a reply waits for ever if and only if its line was empty and everything before it has come back |
| Echo.WhoIsStuck | lab09-fifo-logger/EchoFIFO/client.c:53-119 | for every splitting: nobody waits for a process that has left; a stuck pair waits for its user, has left, or waits for such a reply |
| Echo.HangsExactly | lab09-fifo-logger/EchoFIFO/client.c:76-112 | for every splitting: some run leaves the client waiting for ever if and only if an empty line is typed before QUIT |
| Echo.ExitsExplained | lab09-fifo-logger/EchoFIFO/echo.c:103-122 | in every run: the echo process leaves with success only on four bytes equal to QUIT, the client only on the line QUIT; a client that fails was left behind by the first, an echo process that fails by the second |
| Echo.AfterEchoLeft | lab09-fifo-logger/EchoFIFO/client.c:86-90 | once the echo process has left nothing more is put on the wires; a client in its send loop stops where it is or fails |
| Echo.AfterClientLeft | lab09-fifo-logger/EchoFIFO/echo.c:134-138 | once the client has left nothing more is put on the wires; an echo process in the middle of an answer stops where it is or fails |
| Echo.RepliesAreReads | lab09-fifo-logger/EchoFIFO/client.c:53-122 | for every splitting the replies shown are all the bytes read after the first read, one read of at most the buffer each, one for each line but the one in progress or the last |
| Echo.FragmentQuits | lab09-fifo-logger/EchoFIFO/client.c:112-116 | a first line that only begins with QUIT has a run in which the rest is never echoed and the client fails on end of file |
| EchoProgram.Processes.EchoStep | lab09-fifo-logger/EchoFIFO/echo.c:81-142 | a step of the echo process over its real buffer is the machine's step |
| EchoProgram.Processes.WriteSome | lab09-fifo-logger/EchoFIFO/echo.c:134-141 | one turn of a write loop, or the end of the process when nobody can read |
| EchoProgram.Processes.ReadSome | lab09-fifo-logger/EchoFIFO/echo.c:103-122 | a read into the buffer and the test for QUIT, or the exit on end of file |
| EchoProgram.Processes.ClientStep | lab09-fifo-logger/EchoFIFO/client.c:53-132 | a step of the client, its exits on end of file included, is the machine's step |
| EchoProgram.Processes.Collect | lab09-fifo-logger/EchoFIFO/client.c:112-119 | a read of what the echo process sent, or the exit on end of file |

## Left out

- Weak memory and C data-race undefined behaviour: loads and stores are sequentially consistent.
- Overflow of the `int` balance of lab05; the counters of lab02 do wrap, at 2^64.
- A negative `n`, `m` or `t` on the command line of the lab02 and recap programs.
- Failure of `malloc`, `fork`, `pthread_create`, semaphore calls and `close`; error exits other than those of the copy, the send loops and the limiter's handlers.
- End of input in `fgets`, lines longer than the buffer, and a chat line containing NUL.
- Echo: closing both descriptors and leaving is one step; a write to a FIFO nobody reads ends the process, as the signal the programs leave at its default does.
- Chat: a late line sent to a peer that has closed is written and read by nobody; that the signal would end the sender there is not modelled.
- FIFOs and sockets have unlimited capacity, so a write never blocks for want of room.
- Copy: line 90 uses `FD_ERROR_HELPER`, which the file does not define; it is read as the check on line 51.
- SendLoop.SendLoop: errno is a value that only an error of `recv` or `send` itself changes; what the calls of the logging server between the two might leave in it is not modelled.
- Recap: the sleep of `t` seconds is an arbitrary delay; `read` and `write` of one `int` are taken to move it whole, as the source does.
- Program points, the buffer of the echo client and the buffer of the chat sender are values; shared variables, the other buffers, per-thread cells and files are fields, arrays and objects.
- Chat over sockets and over FIFOs is one model: the two sources differ only in the descriptors, and the FIFO one opens both FIFOs in the same order on both sides, which is the case covered by the lemma on opens.
- Sockets, addresses, signal handlers, named-semaphore creation, `dup2`, argument parsing, printing and all timing.
- The remaining programs: lab08, the time server, the lab09 log server, the thread version of the limiter, the other clients, and the measurement and arithmetic exercises; they repeat loops covered here or would only add easy lemmas.

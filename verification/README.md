# Verified models of the concurrent exercises

This project models the programs of `practice/practice_device_bd` that hold real concurrency,
protocol or arithmetic content, and proves what they are written to show.

| files | programs |
|---|---|
| `SharedCounter`, `RaceCounter`, `LockedCounter`, `SemCounter` | EX04-02 to EX04-05: threads counting on `g_count` without a lock, with a mutex, up to a bound, with a start semaphore |
| `BreadFactory` | EX04-06: makers and a boxer that wait busily |
| `SysVSemaphore`, `FileCounter`, `SharedRecord` | EX03-08 and EX03-10: processes sharing a file byte or a checksummed record under a semaphore with `SEM_UNDO` |
| `MessageQueue`, `RequestReply`, `Progress`, `FileServer`, `Calculator` | EX03-12 and EX03-13: request/reply servers on a System V message queue |
| `Yuyv`, `Canvas`, `FrameBuffer`, `Camera` | EX06-04: YUYV frames drawn into a frame buffer, and the buffer loop around it |
| `SelectServer` | EX07-04: the `select` echo server |
| `Runs`, `Sums`, `Options` | runs of a transition relation, sums over sequences |

## How the programs are modelled

- A program with several threads or processes is a relation `Next` on a datatype `State`: each
  load, store, lock, unlock, post, wait, semaphore operation, send and receive is one step, and
  local work is merged into the step before it. Steps interleave freely, under sequential
  consistency. `Runs` gives finite runs of such a relation, invariants, measures, refinement.
- The same statements are also written in place: a class holds the globals and the kernel object
  as fields and arrays, its `Advance` (or `Continue`, `Receive`, `Reply`, ...) executes one
  statement and is proved to do what `Step` says, and a method for `main` plays any schedule turn
  by turn and ensures what the program promises, and which schedules bring it to its end. The drawing loops and the select loop are the loops of the
  source on an array, a map and a set.
- Constants of the source are parameters wherever the property allows: number of threads,
  processes and clients, iterations, bounds, threshold, box size, record size, queue capacity,
  screen geometry.
- Counters are mathematical integers: `g_count` stays in range because it is at most
  threads * iterations, or the bound. Addresses are below `xres * yres * bpp / 8`, which `fb_init`
  itself computes in an `int`.
- C division and the conversion from `double` truncate toward zero and are written out
  (`CDiv`, `Truncate`). 1.4075 is an exact real here; the product with `V - 128` is an integer
  only for V = 128 and at least 1/400 away from one otherwise, so rounding cannot change the
  truncated value. Loads, shifts and masks are on bit-vectors, in little-endian byte order.

## Results that are conditions

- EX04-02: under a given schedule both joins succeed if and only if each thread has 4n + 1 turns.
- EX04-02: the final values of `g_count` are exactly min(n, 2) to k * n for k >= 2 threads.
- EX04-04: the threads can all leave if and only if the bound is not negative.
- EX04-05: both threads leave if and only if the bound is at least the threshold of 100; below it
  the second thread hangs on the semaphore, and below 0 no run comes to a stop.
- EX04-05: thread 1 can leave with exactly the counts from the threshold to the bound.
- EX04-06: an infinite run comes to its end if and only if it is strongly fair and there is bread
  for all boxes. The end is reachable, and then from every reachable state, if and only if there
  is that much bread.
- EX03-10: the status a writer stores at its timeout is final if and only if there is no other
  writer.
- EX03-12 and EX03-13: no reachable state is stuck with a client unserved if and only if the queue
  has room for one message of each client.
- EX03-12: every client sees its own operands in every run if and only if the queue holds at most
  one message or all clients ask about the same operands. `FirstSentFirstAnswered` says what holds
  without that condition.
- EX06-04: the address arithmetic of `draw_rect` and `capture_to_fb` agrees if and only if lines
  have no padding (or there is one line); and clearing the screen stays within the mapped bytes if
  and only if a line is no longer than its pixels (or there is one line). The stores of
  `capture_to_fb` stay within them if and only if the last pixel of the window's last row does.

## Model

| member | source | states |
|---|---|---|
| SharedCounter.Machine.Advance | practice/practice_device_bd/EX04-05_pthread_sem/pthread_sem.c:16-62 | one statement of a thread in place changes globals, mutex, semaphore and thread as the transition relation says, and blocks where the calls block |
| SharedCounter.Machine.Run | practice/practice_device_bd/EX04-05_pthread_sem/pthread_sem.c:64-118 | plays the schedule turn by turn: after each turn the globals are as the step of that thread leaves them, or as before where it blocks or has left |
| RaceCounter.RaceBounds | practice/practice_device_bd/EX04-02_pthread_multi/pthread_multi.c:13-45 | no interleaving of k unlocked threads ends outside min(n, 2) to k * n |
| RaceCounter.RaceReaches | practice/practice_device_bd/EX04-02_pthread_multi/pthread_multi.c:13-45 | for each value in that range a run that ends with it |
| RaceCounter.RaceFinalValues | practice/practice_device_bd/EX04-02_pthread_multi/pthread_multi.c:13-45 | the final values are exactly that range |
| RaceCounter.RaceTerminates | practice/practice_device_bd/EX04-02_pthread_multi/pthread_multi.c:18-27 | every run has at most k * (8 + 9n) steps and stops only when all threads have left |
| RaceCounter.RaceJoins | practice/practice_device_bd/EX04-02_pthread_multi/pthread_multi.c:18-27 | under a given schedule all threads have left iff each has had 4n + 1 turns |
| RaceCounter.RaceMain | practice/practice_device_bd/EX04-02_pthread_multi/pthread_multi.c:47-87 | both joins succeed iff the schedule gives each thread 4n + 1 turns, and then g_count lies between min(n, 2) and 2n |
| LockedCounter.RunRefinesAtomic | practice/practice_device_bd/EX04-03_pthread_mutex/pthread_mutex.c:14-50 | the image of every run of any number of locking threads, states that look like the one before left out, is itself a run of a counter with one atomic action |
| LockedCounter.StepRefines | practice/practice_device_bd/EX04-04_pthread_mutex2/pthread_mutex2.c:19-35 | the store under the lock is the atomic increment, every other step is invisible |
| LockedCounter.MutualExclusion | practice/practice_device_bd/EX04-03_pthread_mutex/pthread_mutex.c:20-25 | at most one thread is between lock and unlock |
| LockedCounter.RunsAreFinite | practice/practice_device_bd/EX04-04_pthread_mutex2/pthread_mutex2.c:14-62 | with fixed iterations or a bound of at least 0 no run is longer than the measure of its start |
| LockedCounter.DeadlockFree | practice/practice_device_bd/EX04-04_pthread_mutex2/pthread_mutex2.c:14-62 | only the state with all threads gone is final |
| LockedCounter.RoundsStop | practice/practice_device_bd/EX04-04_pthread_mutex2/pthread_mutex2.c:14-62 | any schedule with enough rounds of all threads, whatever else is in it, brings the program to a state in which nobody can move |
| LockedCounter.MutexTotal | practice/practice_device_bd/EX04-03_pthread_mutex/pthread_mutex.c:14-50 | g_count ends at the sum of the threads' iterations, and each thread has counted its own |
| LockedCounter.MutexMain | practice/practice_device_bd/EX04-03_pthread_mutex/pthread_mutex.c:52-99 | any schedule with 16 + 18n rounds of both threads has both join, and then g_count is 2n |
| LockedCounter.BoundTotal | practice/practice_device_bd/EX04-04_pthread_mutex2/pthread_mutex2.c:14-62 | g_count ends exactly at the bound, which is the sum of the local counts |
| LockedCounter.BoundStops | practice/practice_device_bd/EX04-04_pthread_mutex2/pthread_mutex2.c:19-28 | all threads can leave if and only if the bound is not negative; otherwise no reachable state is final |
| LockedCounter.BoundMain | practice/practice_device_bd/EX04-04_pthread_mutex2/pthread_mutex2.c:64-111 | any schedule with 16 + 9 * max rounds of both threads has both join, and then g_count is the bound and the sum of the two counts |
| SemCounter.SecondStartsAtThreshold | practice/practice_device_bd/EX04-05_pthread_sem/pthread_sem.c:41-62 | at most one post; thread 2 counts nothing below the threshold and never more than what lies above it |
| SemCounter.OnlyFirstPosts | practice/practice_device_bd/EX04-05_pthread_sem/pthread_sem.c:28-34 | every post is thread 1's, with g_count at the threshold, and is the first |
| SemCounter.MaximalRuns | practice/practice_device_bd/EX04-05_pthread_sem/pthread_sem.c:16-62 | a run that can go no further has g_count at the bound; both threads have left iff the bound reaches the threshold, else thread 2 hangs; one post, and thread 1 has counted at least the threshold |
| SemCounter.BothLeave | practice/practice_device_bd/EX04-05_pthread_sem/pthread_sem.c:41-62 | a run in which both threads leave exists iff the bound is at least the threshold; with a negative bound thread 1 never leaves and no reachable state is final |
| SemCounter.FirstCounts | practice/practice_device_bd/EX04-05_pthread_sem/pthread_sem.c:16-62 | the counts thread 1 can leave with, over all runs in which both leave, are exactly those from the threshold to the bound |
| SemCounter.RunLength | practice/practice_device_bd/EX04-05_pthread_sem/pthread_sem.c:16-62 | no run has more than 17 + 9 * max steps |
| SemCounter.SemMain | practice/practice_device_bd/EX04-05_pthread_sem/pthread_sem.c:64-118 | any schedule with 17 + 9 * max rounds leaves g_count at the bound and has both threads join iff the bound is at least 100; joined, the counts add up to it |
| BreadFactory.Factory.Advance | practice/practice_device_bd/EX04-06_pthread_bread/pthread_bread.c:21-61 | one statement in place, as the transition relation says |
| BreadFactory.SafeAndStable | practice/practice_device_bd/EX04-06_pthread_bread/pthread_bread.c:30-60 | boxes never run ahead of bread nor bread of the order, and the unlocked exit tests stay true once true |
| BreadFactory.LapWorks | practice/practice_device_bd/EX04-06_pthread_bread/pthread_bread.c:30-35 | while a thread has the mutex, whatever the others do, the boxer fills exactly one box if the bread it found fills one more and a maker bakes exactly one piece if the order was not complete; else the stock stays |
| BreadFactory.LapEnds | practice/practice_device_bd/EX04-06_pthread_bread/pthread_bread.c:51-59 | after the mutex is released a maker leaves iff all bread is made and the boxer iff all boxes are filled; else it starts over |
| BreadFactory.WindowLowersPotential | practice/practice_device_bd/EX04-06_pthread_bread/pthread_bread.c:29-60 | from any state, a stretch in which each live thread gets through a whole lap, begun within it, lowers bread to bake + boxes to fill + threads alive |
| BreadFactory.FairRunsEnd | practice/practice_device_bd/EX04-06_pthread_bread/pthread_bread.c:21-61 | every infinite strongly fair schedule reaches the end: all threads gone, all bread made, all boxes filled |
| BreadFactory.EndsIffFairAndEnough | practice/practice_device_bd/EX04-06_pthread_bread/pthread_bread.c:21-61 | an infinite run reaches the end iff it is strongly fair and there is bread for all boxes |
| BreadFactory.TooLittleBread | practice/practice_device_bd/EX04-06_pthread_bread/pthread_bread.c:49-60 | with less bread than the boxes hold the boxer never leaves, in any run |
| BreadFactory.EndIsReachable | practice/practice_device_bd/EX04-06_pthread_bread/pthread_bread.c:21-61 | from every state the program can be in it can still come to its end, iff there is bread for all boxes |
| BreadFactory.SomeScheduleEnds | practice/practice_device_bd/EX04-06_pthread_bread/pthread_bread.c:95-111 | with bread for all boxes some schedule has all threads leave, all bread made and all boxes filled |
| BreadFactory.FairRunExists | practice/practice_device_bd/EX04-06_pthread_bread/pthread_bread.c:21-61 | with bread for all boxes there are strongly fair runs, which FairRunsEnd is about |
| BreadFactory.NoDeadlock | practice/practice_device_bd/EX04-06_pthread_bread/pthread_bread.c:21-61 | only the state with all threads gone is final |
| BreadFactory.BoxerSpins | practice/practice_device_bd/EX04-06_pthread_bread/pthread_bread.c:49-60 | an infinite run of the program in which only the boxer moves, no bread is made and nothing ends |
| BreadFactory.BreadMain | practice/practice_device_bd/EX04-06_pthread_bread/pthread_bread.c:71-119 | 100 pieces of bread and 10 boxes when the threads have left, under any schedule |
| SysVSemaphore.Exclusive | practice/practice_device_bd/EX03-10_shm_sem/shmput.c:49-61 | value plus undo adjustments is 1, so the semaphore is free iff nobody holds it and nobody shares it |
| SysVSemaphore.UndoDisciplined | practice/practice_device_bd/EX03-10_shm_sem/shmput.c:63-66 | a process that exits gives back what it holds |
| FileCounter.ReadsBackItsOwnByte | practice/practice_device_bd/EX03-08_sem/rw.c:41-96 | with any number of processes, each of which may fail at any semaphore, open, write, read or close call, the byte read back is the byte written and the mismatch branch is never entered |
| FileCounter.FinalByte | practice/practice_device_bd/EX03-08_sem/rw.c:41-100 | when all have finished normally the file holds the letter of the last round |
| FileCounter.RunsEnd | practice/practice_device_bd/EX03-08_sem/rw.c:41-100 | every run is bounded and stops only when every process has returned |
| FileCounter.RoundsFinish | practice/practice_device_bd/EX03-08_sem/rw.c:41-100 | a script of succeeding calls with enough rounds of all processes has every process finish normally |
| FileCounter.FailureReleases | practice/practice_device_bd/EX03-08_sem/rw.c:44-93 | a process can fail at each of its calls; the file and the others stay as they were and the semaphore it held is free |
| FileCounter.WrongByteFails | practice/practice_device_bd/EX03-08_sem/rw.c:84-87 | a comparison that shows another byte ends the process with a failure |
| FileCounter.Host.Advance | practice/practice_device_bd/EX03-08_sem/rw.c:41-96 | one statement or failing call in place, as the transition relation says |
| FileCounter.RwMain | practice/practice_device_bd/EX03-08_sem/rw.c:18-101 | with 50 rounds, any script with enough turns of all processes and no failing call has all finish, and then the file ends with an 'r' |
| SharedRecord.SumLoop | practice/practice_device_bd/EX03-10_shm_sem/shmput.c:81-83 | the summation loop computes the sum of the bytes before the checksum |
| SharedRecord.FreeRecordIsSound | practice/practice_device_bd/EX03-10_shm_sem/shmput.c:54-88 | whenever the semaphore is free a valid record has the right checksum and one complete text, whoever left while holding it |
| SharedRecord.ReadersSeeWholeRecords | practice/practice_device_bd/EX03-10_shm_sem/shmget.c:49-72 | the checksum branch of the reader is unreachable and what it prints is the text written last |
| SharedRecord.ReaderPrints | practice/practice_device_bd/EX03-10_shm_sem/shmget.c:56-71 | a reader that comes to a valid record with the semaphore, left alone, gets to its print and gives the semaphore back |
| SharedRecord.LeavesInvalid | practice/practice_device_bd/EX03-10_shm_sem/shmget.c:56-58 | a process that has left its loop has the record invalid: a reader leaves for no other reason |
| SharedRecord.WrongSumLeaves | practice/practice_device_bd/EX03-10_shm_sem/shmget.c:63-66 | in any state, a reader whose sum differs from the checksum leaves |
| SharedRecord.WriterPublishes | practice/practice_device_bd/EX03-10_shm_sem/shmput.c:79-88 | a writer with the semaphore and any time to show, left alone, ends its round with that text in a valid record, the right checksum and the semaphore free |
| SharedRecord.CallOutcomes | practice/practice_device_bd/EX03-10_shm_sem/shmput.c:56-78 | a failing semop or gettimeofday leaves the record as it is and the semaphore free; a writer may time out iff it has been through its clock call before |
| SharedRecord.ExpiresLater | practice/practice_device_bd/EX03-10_shm_sem/shmput.c:68-77 | no writer times out on its first round |
| SharedRecord.AtMostOneHolder | practice/practice_device_bd/EX03-10_shm_sem/shmget.c:45-71 | value plus adjustments is 1 and at most one process is between taking and giving back or leaving |
| SharedRecord.NoReaderAfterTimeout | practice/practice_device_bd/EX03-10_shm_sem/shmput.c:72-77 | with one writer, after its timeout store no reader gets past the validity check |
| SharedRecord.TimeoutIsFinalIffOnlyWriter | practice/practice_device_bd/EX03-10_shm_sem/shmput.c:72-85 | after a writer's timeout store the record stays invalid in every run iff it is the only writer; a second one marks it valid again |
| SharedRecord.NoDeadlock | practice/practice_device_bd/EX03-10_shm_sem/shmget.c:49-72 | while a process has not returned, one has a step that is not a failing call |
| SharedRecord.Host.Continue | practice/practice_device_bd/EX03-10_shm_sem/shmput.c:54-88 | one statement in place, byte by byte, as the transition relation says |
| SharedRecord.ShmMain | practice/practice_device_bd/EX03-10_shm_sem/shmput.c:18-99 | under any script of steps, timeouts and failures, summing up a free valid record once more gives its checksum |
| SharedRecord.ReachableIsPlayed | practice/practice_device_bd/EX03-10_shm_sem/shmput.c:54-88 | the states that can be reached are exactly those that some script of steps, timeouts and failures plays to |
| MessageQueue.ReceiveTakesHead | practice/practice_device_bd/EX03-13_file_server/file_client.c:53-57 | msgrcv takes the oldest message of its type and no other type notices |
| MessageQueue.SendAppends | practice/practice_device_bd/EX03-13_file_server/file_client.c:47-51 | msgsnd appends to its type and no other type notices |
| MessageQueue.Queue.Receive | practice/practice_device_bd/EX03-13_file_server/file_server.c:35-39 | the scan finds the first message of the type and removes only that |
| RequestReply.RepliesInOrder | practice/practice_device_bd/EX03-12_cal_server/cal_server.c:33-48 | the replies received on a type are a prefix of the answers to the requests sent for it, in order; the server receives the requests in the order sent and nothing else |
| RequestReply.ReplyAnswersRequest | practice/practice_device_bd/EX03-13_file_server/file_server.c:34-56 | each reply a client got is the answer to the request of a client that has sent, for the type it waited on |
| Progress.InFlight | practice/practice_device_bd/EX03-13_file_server/file_server.c:34-56 | as many messages are queued or held as clients wait |
| Progress.SendsNeverBlock | practice/practice_device_bd/EX03-13_file_server/file_server.c:51-55 | with room for one message per client neither client nor server blocks in msgsnd |
| Progress.OnlyServedIsFinal | practice/practice_device_bd/EX03-13_file_server/file_client.c:47-53 | with that room the only final states have every client served |
| Progress.RunsAreShort | practice/practice_device_bd/EX03-13_file_server/file_client.c:47-53 | no run has more than four steps per client, and one that has served all has exactly that many |
| Progress.RoundsServe | practice/practice_device_bd/EX03-13_file_server/file_server.c:34-56 | with room for one message per client, any script with four rounds of all calls per client has every client served |
| Progress.StuckIffTooManyClients | practice/practice_device_bd/EX03-13_file_server/file_server.c:35-51 | a client can be left unserved for ever iff there are more clients than the queue has room for messages |
| FileServer.EachGetsItsOwnFile | practice/practice_device_bd/EX03-13_file_server/file_server.c:34-56 | with distinct pids other than 1 every reply a client gets is for its own file and equals a direct stat |
| FileServer.OneMessageEach | practice/practice_device_bd/EX03-13_file_server/file_client.c:43-64 | a client has one message in flight exactly while it waits |
| FileServer.EveryoneIsServed | practice/practice_device_bd/EX03-13_file_server/file_client.c:30-64 | with room for a message of each client whose name fits, a run that can go no further has taken exactly four steps for each of them, served them all, and left the queue empty |
| FileServer.Server.Receive | practice/practice_device_bd/EX03-13_file_server/file_server.c:35-49 | receive and stat on the one message buffer make the protocol's reply |
| FileServer.Server.Reply | practice/practice_device_bd/EX03-13_file_server/file_server.c:49-55 | the reply goes out with the client's pid as type |
| FileServer.ClientProgram.Send | practice/practice_device_bd/EX03-13_file_server/file_client.c:43-51 | the client's request carries its name and pid |
| FileServer.ClientProgram.Receive | practice/practice_device_bd/EX03-13_file_server/file_client.c:53-57 | the client takes the oldest message of its own pid |
| FileServer.Host.Advance | practice/practice_device_bd/EX03-13_file_server/file_server.c:34-56 | one call of one program in place is the step of the protocol, or blocks where that is not enabled |
| FileServer.FileMain | practice/practice_device_bd/EX03-13_file_server/file_client.c:14-68 | the programs in place, under any script: each reply a client holds is the report on its own file; with room for all whose name fits, four rounds of all calls per client give each of them its reply |
| Calculator.FirstSentFirstAnswered | practice/practice_device_bd/EX03-12_cal_server/cal_server.c:33-48 | the j-th reply received is the j-th request sent with its product |
| Calculator.RepliesAreConsistent | practice/practice_device_bd/EX03-12_cal_server/cal_client.c:44-49 | every reply shows the product of its own operands, and those of the client that sent in the same place |
| Calculator.RepliesMayCross | practice/practice_device_bd/EX03-12_cal_server/cal_client.c:34-49 | with room for two messages any client can take the reply meant for any other |
| Calculator.OwnAnswersIff | practice/practice_device_bd/EX03-12_cal_server/cal_client.c:34-49 | every client sees its own operands in every run iff the queue holds at most one message or all ask alike |
| Calculator.EveryProductDelivered | practice/practice_device_bd/EX03-12_cal_server/cal_client.c:34-49 | with room for all, all are served in exactly four steps a client and the operand pairs received are the pairs sent, as a bag |
| Calculator.Server.Receive | practice/practice_device_bd/EX03-12_cal_server/cal_server.c:34-40 | receive and multiply on the one message buffer make the protocol's reply |
| Calculator.Server.Reply | practice/practice_device_bd/EX03-12_cal_server/cal_server.c:43-47 | the reply goes out with the shared type |
| Calculator.ClientProgram.Send | practice/practice_device_bd/EX03-12_cal_server/cal_client.c:34-42 | the client's request carries its operands |
| Calculator.ClientProgram.Receive | practice/practice_device_bd/EX03-12_cal_server/cal_client.c:44-48 | the client takes the oldest reply, whoever asked for it |
| Calculator.Host.Advance | practice/practice_device_bd/EX03-12_cal_server/cal_server.c:33-48 | one call of one program in place is the step of the protocol, or blocks where that is not enabled |
| Calculator.CalcMain | practice/practice_device_bd/EX03-12_cal_server/cal_client.c:15-54 | the programs in place, under any script: each reply a client holds is a right product of operands somebody asked about, its own under the condition of OwnAnswersIff; with room for all, four rounds of all calls per client give everyone a reply |
| Yuyv.Clamp | practice/practice_device_bd/EX06-04_v4l2test/v4l2test.c:147-148 | components lie in 0 to 255 and are unchanged when they did |
| Yuyv.CDivTruncates | practice/practice_device_bd/EX06-04_v4l2test/v4l2test.c:149-152 | the integer division is the one that truncates toward zero |
| Yuyv.RedIsExact | practice/practice_device_bd/EX06-04_v4l2test/v4l2test.c:146-148 | the floating-point formula for red is a truncating division by 400 |
| Yuyv.RedFromSum | practice/practice_device_bd/EX06-04_v4l2test/v4l2test.c:146-148 | red is the whole part of the sum of the luma and 1.4075 * (v - 128), or the nearer end of 0 to 255 |
| Yuyv.GreenFromProducts | practice/practice_device_bd/EX06-04_v4l2test/v4l2test.c:149-151 | green is the luma less the whole parts of 0.3455 * (u - 128) and 0.7169 * (v - 128), or the nearer end of 0 to 255 |
| Yuyv.BlueFromProduct | practice/practice_device_bd/EX06-04_v4l2test/v4l2test.c:152-154 | blue is the luma plus the whole part of 1.779 * (u - 128), or the nearer end of 0 to 255 |
| Yuyv.OneWholePart | practice/practice_device_bd/EX06-04_v4l2test/v4l2test.c:149-152 | each product has exactly one whole part, the quotient that truncates |
| Yuyv.NeutralIsGrey | practice/practice_device_bd/EX06-04_v4l2test/v4l2test.c:146-154 | with neutral chroma all components equal the luma |
| Yuyv.ReadBack32 | practice/practice_device_bd/EX06-04_v4l2test/v4l2test.c:157-160 | at 32 bits the stored bytes are exactly blue, green, red and 0 |
| Yuyv.ReadBack16 | practice/practice_device_bd/EX06-04_v4l2test/v4l2test.c:161-164 | at 16 bits the stored word gives back the components divided by 8, 4 and 8: 5, 6 and 5 bits |
| Yuyv.SamePacking | practice/practice_device_bd/EX06-04_v4l2test/v4l2test.c:66-73 | draw_rect takes a packed colour apart and packs it as capture_to_fb does |
| Yuyv.ColourIsPixel | practice/practice_device_bd/EX06-04_v4l2test/v4l2test.c:66-73 | at both depths draw_rect stores a colour constant as a pixel of its three components |
| Yuyv.ColourKept | practice/practice_device_bd/EX06-04_v4l2test/v4l2test.c:66-67 | at 32 bits it stores the whole word |
| Yuyv.LoadedBytes | practice/practice_device_bd/EX06-04_v4l2test/v4l2test.c:138-144 | shifts and masks of the loaded word give the bytes Y0, U, Y1, V |
| Canvas.Locate | practice/practice_device_bd/EX06-04_v4l2test/v4l2test.c:65-67 | the bytes at a pixel's address are exactly the bytes whose row and column by division are the pixel's |
| Canvas.PaintedPixel | practice/practice_device_bd/EX06-04_v4l2test/v4l2test.c:157-164 | each pixel of the drawn area reads back as the picture's pixel |
| Canvas.OutsideUnchanged | practice/practice_device_bd/EX06-04_v4l2test/v4l2test.c:157-164 | an element that belongs to no pixel of the drawn area is as before |
| Canvas.PaintTwice | practice/practice_device_bd/EX06-04_v4l2test/v4l2test.c:204-207 | a second drawing over the same area leaves no trace of the first |
| FrameBuffer.DrawRect | practice/practice_device_bd/EX06-04_v4l2test/v4l2test.c:58-76 | all stores are in bounds, the rectangle has the colour, every other byte is as before |
| FrameBuffer.CaptureToFb | practice/practice_device_bd/EX06-04_v4l2test/v4l2test.c:124-191 | all loads and stores are in bounds, each window pixel is the packed conversion of its own luma and its pair's chroma, every other byte is as before |
| FrameBuffer.FrameSource | practice/practice_device_bd/EX06-04_v4l2test/v4l2test.c:138-165 | the pixel in row i and column j of a frame is packed from the byte of its own luma and the two chroma bytes of its pair |
| FrameBuffer.WindowShows | practice/practice_device_bd/EX06-04_v4l2test/v4l2test.c:159-186 | after a frame the bytes at each pixel of the window are the pixel of the frame in that place |
| FrameBuffer.RestStays | practice/practice_device_bd/EX06-04_v4l2test/v4l2test.c:159-186 | every byte outside the rows and columns of the window is as before |
| FrameBuffer.CaptureStaysInMap | practice/practice_device_bd/EX06-04_v4l2test/v4l2test.c:157-186 | wherever the unchecked options put the window, every store of capture_to_fb lies within the size_fb bytes mapped iff the last pixel of its last row does |
| FrameBuffer.Convert | practice/practice_device_bd/EX06-04_v4l2test/v4l2test.c:146-154 | assigning and clamping step by step gives the converted components |
| FrameBuffer.LoadPair | practice/practice_device_bd/EX06-04_v4l2test/v4l2test.c:138-144 | one load delivers the two lumas and the shared chroma |
| FrameBuffer.Address | practice/practice_device_bd/EX06-04_v4l2test/v4l2test.c:159-163 | multiplying by the depth and dividing by 8 last is the address by rows of xres pixels |
| Camera.AddressesAgree | practice/practice_device_bd/EX06-04_v4l2test/v4l2test.c:58-76 | both drawings address alike on the whole screen iff lines have no padding |
| Camera.ClearScreen | practice/practice_device_bd/EX06-04_v4l2test/v4l2test.c:104-106 | with zero offsets, where clearing stays within the map, every byte of the screen becomes 0 |
| Camera.ClearStaysInBounds | practice/practice_device_bd/EX06-04_v4l2test/v4l2test.c:96-106 | every store of the full-screen draw_rect lies within the size_fb bytes mapped iff a line is no longer than its pixels or there is at most one line |
| Camera.Capture.StartCapturing | practice/practice_device_bd/EX06-04_v4l2test/v4l2test.c:293-312 | the driver ends up with every buffer, each handed over once |
| Camera.Capture.ReadFrame | practice/practice_device_bd/EX06-04_v4l2test/v4l2test.c:209-241 | the accesses to a filled buffer are dequeue, one read, enqueue; the driver never holds a buffer that is read; its frame is drawn, and afterwards the driver has all buffers again |
| Camera.Capture.MainLoop | practice/practice_device_bd/EX06-04_v4l2test/v4l2test.c:243-282 | exactly `count` frames are shown unless select fails or times out or the dequeue fails, each of which ends the program at once, while an interrupted select or EAGAIN does not; the screen is as the last frame leaves it, and no buffer was read or enqueued while the driver held it |
| Camera.CameraMain | practice/practice_device_bd/EX06-04_v4l2test/v4l2test.c:591-595 | after k >= 1 frames the window shows frame k and everything else is black, on a screen that can be cleared within the map |
| SelectServer.StillTheSameConnection | practice/practice_device_bd/EX07-04_tcp_multi/multi_server_bd.c:85-113 | a reported descriptor still denotes the connection it denoted at select time when the pass comes to it |
| SelectServer.PassKeeps | practice/practice_device_bd/EX07-04_tcp_multi/multi_server_bd.c:72-113 | the watched set is the listener and the clients, the listener stays open, and each client has one descriptor |
| SelectServer.AfterPass | practice/practice_device_bd/EX07-04_tcp_multi/multi_server_bd.c:85-113 | the descriptors after a pass are those of before, each for what it was, but those whose read gave nothing; and if the listener was ready one more, watched, for the connection that arrived: the lowest not open when the pass came to the listener |
| SelectServer.ClientsAfterPass | practice/practice_device_bd/EX07-04_tcp_multi/multi_server_bd.c:85-113 | the clients after a pass are those of before whose read did not give nothing, and the one that arrived iff the listener was ready |
| SelectServer.PassLogs | practice/practice_device_bd/EX07-04_tcp_multi/multi_server_bd.c:99-110 | a pass reads from each connection exactly what it sent in that round |
| SelectServer.EchoesItsOwnBytes | practice/practice_device_bd/EX07-04_tcp_multi/multi_server_bd.c:85-113 | over any rounds, what is written to a connection is what that connection sent, in order |
| SelectServer.WhoStays | practice/practice_device_bd/EX07-04_tcp_multi/multi_server_bd.c:99-103 | a connection loses its descriptor in a pass iff its read gave nothing |
| SelectServer.Server.ServeRound | practice/practice_device_bd/EX07-04_tcp_multi/multi_server_bd.c:85-113 | the loop over the descriptors, through the one shared buffer, does what the pass says |
| SelectServer.Server.Loop | practice/practice_device_bd/EX07-04_tcp_multi/multi_server_bd.c:72-114 | every connection gets back exactly its own bytes |

## Left out

- Printing, sleeping, wall-clock values, errno reporting and the set-up calls that may fail before the loops begin; the timeout test of EX03-10 is a free choice.
- Weak memory, signed overflow (also of the calculator's product) and processes killed from outside.
- Restarts and other uses of the objects: removal with IPC_RMID, a second SETVAL, several mains on one queue.
- EX03-10: `semop` +1 is taken to succeed, as the source ignores its result; the text is any string that fits the buffer; the status word and the checksum are each stored and read as one access.
- EX03-13: the queue limit counts messages, where the kernel counts bytes of equal-sized messages.
- EX07-04: failing `select` and `accept`, incomplete writes, and descriptors of FD_SETSIZE and above.
- EX06-04: option parsing and device negotiation; depths other than 32 and 16; negative window positions; colour packing is in-place stores of whole bytes.
- Unsynchronised variants EX03-07 and EX03-09, and all exercises that only wrap system calls: they would only add easy members.
- EX04-06: several boxers, of which the source has one; they could overshoot the exit test.
- EX03-12 and EX03-13: programs work in place one call at a time; who sent and received what is kept only as ghost history.

# Five concurrent programs, modelled and proved

The repository holds small C programs about processes and threads. This project models the five whose
correctness rests on an ordering argument, and proves what their authors rely on, for every input and
every interleaving.

* **Thread pool** (`task7/multiplex-io/server/src/thpool.c`). `JobQueues` is the linked queue as a class
  over its nodes. `ThreadPool` is the pool as a state machine: any number of workers, one caller of
  `thpool_wait`, one of `thpool_destroy`, any number of submitters. One action is one mutex-protected
  block or one unprotected access; the queue change and the `bsem_post` inside `rwmutex` are two actions,
  and so are the waiter's read of `len`, its read of `num_threads_working` and its going to sleep, and a
  worker's last decrement and the unlocking after it.
  `Enabled` says when an action is possible, `Apply` what it does, `Runs` what a run is. `PoolSafety` has
  the invariants and what users get from them, `PoolDiscipline` who changes what, `PoolProgress`
  termination, `PoolRuns` what the pool can do from where, `PoolShutdown` and `PoolClearing` the destroyer,
  `PoolLeftovers` what it can leave behind.
* **Shared-memory ring buffer** (`task3/shr-mem-SYSV`). `SharedBuffer` has the steps of sender and
  receiver (each semaphore operation, each access to shared memory) and the memory block as a class;
  `SharedBufferProofs` safety, progress and the end-of-file test, and that runs use the block as its class
  promises; `SharedBufferOutcome` exactly when the copy is complete and exactly when the sender ends.
* **Byte transfer by signals** (`task5/sig-transf`). `SignalTransfer` has the two processes, their
  pending signals and the handlers; `SignalTransferProofs` safety, completeness and progress;
  `SignalTransferAlarm` what arrives when the alarm goes off.
* **Framed pipe** (`task2/duplex-pipe`). `FramedPipe` has the header arithmetic with its wrapping bytes,
  sender and receiver as loops over one buffer, and the stream as functions; `FramedPipeReads` exactly
  which reads the transfer survives.
* **Pipeline of commands** (`task1/shell-wrapper`). `Pipeline` has processes with descriptor tables and
  `run_cmd`'s loop of pipe, fork, dup2 and close.

Some promises do not hold as the programs stand; each is proved with its exact condition.

* The ring buffer's receiver takes the announcement of the last byte for that of the end when the sender
  has set `status` but not yet posted `full` (sm_main.c:94-102, 126). The copy is complete under every
  scheduling if and only if the buffer has one byte or the source is empty (`CompleteIff`); in one run it
  is complete if and only if the sender has posted by then (`EndOfFile`).
* The ring buffer's sender ends if and only if it already waits at line 105 when the receiver sets
  `status` (`SenderEndsIff`); for every buffer and source some run leaves it waiting for ever.
* With 0 or 1 closed in the shell, the lowest free descriptors are those that the children redirect. The
  commands are connected if and only if there are fewer than two, or 0 and 1 are open, or there are two
  and 0 is closed (`ConnectedIff`).
* The alarm of the signal transfer may cut any file short; without it every file arrives whole
  (`WholeFileArrives`, `CertainDespiteAlarmIff`). Which bytes arrive follows from where the child is when
  it goes off, and it does no harm if and only if the parent has then had every bit (`AlarmOutcome`,
  `AlarmIsHarmlessIff`).
* The framed pipe's receiver takes each read for a frame. Every file of a given length comes through if and
  only if the reads fall on the frame boundaries, or cut a last empty frame before its last byte
  (`SafeCutsIff`); a second frame read in part spoils every file whose byte at the cut is not the one a full
  load before it (`SecondFrameCut`).
* `num_threads_alive` reaches 0 before the last worker has unlocked `thcount_lock`. That no worker is left
  over when `thpool_destroy` is done is certain if and only if the pool has none (`NobodyLeftOverIff`); what
  is left to such a worker is that unlocking (`NoWorkerAfterTheLoops`).
* `thpool_wait` may never return once `thpool_destroy` is called before it does, for every pool and job
  (`WaitMayNeverReturn`). A caller still in its loop when `threads_keepalive` is cleared has returned, where
  the pool comes to rest before the queue is cleared, if and only if at most as many jobs were queued as
  workers were past both tests and had not pulled (`WaitReturnsIff`).

## Assumptions

* Jobs terminate, and `pthread_cond_signal` wakes a sleeper when there is one. Spurious wakeups, and with
  them signals that wake several, are actions of the pool; the bounds on its runs count them.
* A step that is possible for ever is not required to happen: termination is a bound on the length of runs,
  and progress says what holds where no step is left.
* Nobody submits a job once `thpool_destroy` clears the queue.
* A handler runs with all signals blocked and `sigsuspend` lets exactly one run, as the masks in
  st_main.c say. SIGALRM may arrive whenever `alarm` has been called. Of SIGCHLD and a bit signal, both
  pending, either may be delivered first, as POSIX leaves it; `AlarmOutcomeBitsFirst` is for systems that
  take the lower number first.
* `RoundTrip`, `Transfer` and `Echo` are for reads that return `BUF_SZ` bytes or what is left
  (`FullReads`); `SafeCutsIff` is for all others.
* `pipe` picks unused numbers. Everything about `run_cmd` is proved for any choice (the parameter `pick`) but
  `ConnectedIff`, which is for the lowest.

## Model

| member | source | states |
|---|---|---|
| JobQueues.JobQueue.Push | task7/multiplex-io/server/src/thpool.c:434-455 | A pushed job becomes the last of the sequence the queue stands for, the links stay a chain from front to rear, and the semaphore is posted. |
| JobQueues.JobQueue.Pull | task7/multiplex-io/server/src/thpool.c:461-487 | The head is removed and returned, null from an empty queue; the semaphore is posted again exactly when jobs remain. |
| JobQueues.JobQueue.Clear | task7/multiplex-io/server/src/thpool.c:418-429 | Terminates having freed every node that was in the queue once and in order, and leaves it empty with the semaphore at 0. |
| JobQueues.JobQueue.AddWork | task7/multiplex-io/server/src/thpool.c:176-193 | A new job with the given work is appended. |
| JobQueues.WalkIsContents | task7/multiplex-io/server/src/thpool.c:54-68 | Following prev from front meets exactly len distinct jobs, in the order of the sequence, and ends at rear, whose prev is null. |
| PoolSafety.AllThreadsServe | task7/multiplex-io/server/src/thpool.c:160-171 | After thpool_init every thread is alive, and all stay so until thpool_destroy. |
| PoolSafety.WorkingIsExact | task7/multiplex-io/server/src/thpool.c:355-375 | In every reachable state num_threads_working is the number of workers between its increment and its decrement. |
| PoolSafety.ExactlyOnceInOrder | task7/multiplex-io/server/src/thpool.c:360-368 | Jobs pulled so far followed by the queue are the jobs pushed, as sequences; every pulled job is in the hands of exactly one worker or has ended exactly once. |
| PoolSafety.NoLostWakeup | task7/multiplex-io/server/src/thpool.c:522-547 | A posted semaphore never meets workers that all sleep, in any reachable state; and while the pool serves and rwmutex is free, queued jobs mean a posted semaphore or a worker on its way to the queue, so some worker is awake. |
| PoolSafety.NoLostIdleSignal | task7/multiplex-io/server/src/thpool.c:198-201 | From its decision to sleep until it is woken, the caller of thpool_wait has something to wait for: a job is queued or a worker has still to decrement, even if len has become 0 in between. |
| PoolSafety.WaitIsSound | task7/multiplex-io/server/src/thpool.c:197-203 | When thpool_wait returns, every job pushed before the call, or before any of its reads of len, has been run to its end, although len is read without rwmutex and the wait may end spuriously; as long as the destroyer has not begun to clear the queue. |
| PoolSafety.InvKept | task7/multiplex-io/server/src/thpool.c:345-381 | Every action of every thread, and every spurious wakeup, keeps all invariants of the pool together. |
| PoolDiscipline.CountLockExcludes | task7/multiplex-io/server/src/thpool.c:355-381 | In every reachable state at most one thread holds thcount_lock between two steps, and while one does nobody else takes it or changes num_threads_working or num_threads_alive. |
| PoolDiscipline.QueueLockExcludes | task7/multiplex-io/server/src/thpool.c:434-487 | While a thread is between its change of the queue and its post nobody changes the queue, the destroyer included, and only that thread releases rwmutex. |
| PoolDiscipline.WokenExactlyWhenIdle | task7/multiplex-io/server/src/thpool.c:370-375 | The sleeping caller of thpool_wait is signalled exactly by the step that brings num_threads_working down to 0. |
| PoolDiscipline.PassesArePaid | task7/multiplex-io/server/src/thpool.c:522-547 | In no run do more workers return from bsem_wait than posts were made, the one there at the beginning included. |
| PoolDiscipline.PullPostsIffMoreJobs | task7/multiplex-io/server/src/thpool.c:461-487 | A pull takes the head of the queue, and the worker goes on holding rwmutex to post again exactly when jobs remain. |
| PoolRuns.CallsStartExactly | task7/multiplex-io/server/src/thpool.c:124-223 | Nothing can be called before thpool_init has returned; then thpool_wait and thpool_destroy start whenever their one caller is not in them, and a submission whenever nobody else holds rwmutex and the queue is not being cleared. |
| PoolRuns.ExactlySleepersMayWake | task7/multiplex-io/server/src/thpool.c:198-201 | A spurious wakeup may come at any time to every sleeping worker and to the sleeping waiter, and to nobody else. |
| PoolRuns.ManyJobs | task7/multiplex-io/server/src/thpool.c:434-455 | For every number of workers and every sequence of jobs there is a run in which these jobs, in this order, are what was pushed and is queued. |
| PoolRuns.SubmissionGoesThrough | task7/multiplex-io/server/src/thpool.c:176-193 | From every reachable state after thpool_init and before the clearing a further job is queued and posted within three steps, with no job ending in between. |
| PoolRuns.NobodyWaitsForAJob | task7/multiplex-io/server/src/thpool.c:355-379 | From every reachable state a worker that is awake and not in a job can move on without any job ending: mutexes are never held during a job. |
| PoolRuns.WaiterGetsOn | task7/multiplex-io/server/src/thpool.c:197-203 | Nor does the caller of thpool_wait, except where it sleeps. |
| PoolRuns.WaitDecides | task7/multiplex-io/server/src/thpool.c:199-202 | Undisturbed, thpool_wait returns from its test if no job is queued and num_threads_working is 0, and sleeps otherwise. |
| PoolRuns.DestroyerGetsOn | task7/multiplex-io/server/src/thpool.c:220-234 | The caller of thpool_destroy is at its next place, or has freed a job, after at most two steps, from every reachable state. |
| PoolRuns.AllBusy | task7/multiplex-io/server/src/thpool.c:355-367 | For every n and at most n jobs there is a run in which all of them are being executed at the same time, each by its own worker. |
| PoolRuns.AnySleeperMayServe | task7/multiplex-io/server/src/thpool.c:522-528 | In a serving pool at rest each of the sleepers can be the one that executes the next job. |
| PoolProgress.RunsAreBounded | task7/multiplex-io/server/src/thpool.c:349-378 | A run without steps of the destroyer takes at most the measure of its first state, 91 steps for each submission, 5 for each call of thpool_wait, 1 for that of thpool_destroy, and 6 and 5 for each spurious wakeup of a worker and of the waiter. |
| PoolProgress.RestMeansDone | task7/multiplex-io/server/src/thpool.c:434-487 | Where a pool of at least one worker can take no step, the queue is empty, v is 0, every submitted job has been run once, every worker sleeps and thpool_wait has returned. |
| PoolProgress.SleeperAtRest | task7/multiplex-io/server/src/thpool.c:198-201 | In a pool of at least one worker at rest, before the queue is cleared, the caller of thpool_wait sleeps only if thpool_destroy has told the workers to leave with jobs still queued. |
| PoolProgress.PoolDrains | task7/multiplex-io/server/src/thpool.c:349-378 | From any reachable state before thpool_destroy, with no more calls, every run with finitely many spurious wakeups is finite, and where it rests all jobs have been run and thpool_wait has returned. |
| PoolRuns.ComesToRest | task7/multiplex-io/server/src/thpool.c:349-378 | From every state that keeps the invariants the pool can come to rest by steps of its own. |
| PoolRuns.WaitCanReturn | task7/multiplex-io/server/src/thpool.c:197-203 | From every reachable serving state thpool_wait can be called, again after it has returned, and can return with every job run. |
| PoolShutdown.EveryPostAllFreesAWorker | task7/multiplex-io/server/src/thpool.c:228-231 | After each bsem_post_all, when the pool has come to rest, more workers have left than before, unless all have, whatever happened in between. |
| PoolClearing.DestroyEnds | task7/multiplex-io/server/src/thpool.c:220-231 | The polling loop posts at most as often as there are workers when each pause lets the pool come to rest, and thpool_destroy then ends in one step for each queued job and at most two more. |
| PoolClearing.TimedRounds | task7/multiplex-io/server/src/thpool.c:220-225 | While a worker is alive the first loop can post to all any number of times, none included, and goes on to the second loop when the time is up. |
| PoolClearing.DestroyCanFinish | task7/multiplex-io/server/src/thpool.c:207-242 | From every reachable state after thpool_init, whatever is queued and whoever sleeps, thpool_destroy can be called and can come to its end. |
| PoolClearing.ClearingCounts | task7/multiplex-io/server/src/thpool.c:418-429 | In every run from the clearing on, each step of the destroyer frees the head of the queue until none is left, and one more ends it, whatever other threads do in between. |
| PoolClearing.ClearingEnds | task7/multiplex-io/server/src/thpool.c:418-429 | From every state at the clearing with rwmutex free the destroyer alone is done in one step for each queued job and one more. |
| PoolClearing.AllFreed | task7/multiplex-io/server/src/thpool.c:418-429 | For every pool and every sequence of jobs there is a run in which exactly these jobs are freed, each once, and none is run. |
| PoolClearing.DestroyedIsReset | task7/multiplex-io/server/src/thpool.c:424-427 | When thpool_destroy is done the queue is empty, the semaphore at 0 and rwmutex free. |
| PoolShutdown.DestroyStopsNewJobs | task7/multiplex-io/server/src/thpool.c:349-362 | After threads_keepalive is cleared a worker takes a job only if it was then past both tests and had not pulled, and then at most one; and before the clearing no more jobs leave the queue than there were such workers. |
| PoolShutdown.NoWorkerAfterTheLoops | task7/multiplex-io/server/src/thpool.c:379-381 | In every reachable state after both polling loops a worker's only step is to unlock thcount_lock after its last decrement; no worker wakes any more. |
| PoolShutdown.QueueIsTheDestroyers | task7/multiplex-io/server/src/thpool.c:233-234 | From then on no thread but the destroyer changes the queue, or runs or frees a job. |
| PoolShutdown.RunOrFreed | task7/multiplex-io/server/src/thpool.c:207-242 | When thpool_destroy is done every job ever submitted was run exactly once or freed exactly once, never both. |
| PoolShutdown.ExactlyTheQueueIsFreed | task7/multiplex-io/server/src/thpool.c:418-429 | The jobs freed unexecuted are exactly those still in the queue when the loops were left; none is submitted after that, and all earlier ones were run. |
| PoolLeftovers.NobodyLeftOverIff | task7/multiplex-io/server/src/thpool.c:228-242 | That every worker is through with the pool when thpool_destroy is done, whatever the scheduling, holds if and only if the pool has no worker; for every argument of thpool_init. |
| PoolLeftovers.UnlockAfterDestroy | task7/multiplex-io/server/src/thpool.c:228-242 | For every pool of at least one worker there is a run in which thpool_destroy is done and a worker has not unlocked thcount_lock. |
| PoolLeftovers.WaitReturnsIff | task7/multiplex-io/server/src/thpool.c:197-216 | A caller in the loop of thpool_wait when threads_keepalive is cleared: with more jobs queued than workers between the second test and the pull it does not return before the queue is cleared, in any run without new calls; and where such a run rests before that, it has returned if and only if there were not more. |
| PoolLeftovers.WaitMayNeverReturn | task7/multiplex-io/server/src/thpool.c:197-203 | For every pool and job there is a run in which thpool_destroy makes the workers leave with the job queued, and thpool_wait does not return in any continuation without a spurious wakeup. |
| SharedBuffer.SharedMemory.SendBody | task3/shr-mem-SYSV/src/sm_main.c:91-99 | The block stands for a sequence of unread bytes: with room for one more the next byte of the file is added at its end; at the end of the file status becomes 0 and the sequence stays. |
| SharedBuffer.SharedMemory.ReceiveBody | task3/shr-mem-SYSV/src/sm_main.c:134-140 | The first unread byte is returned and leaves the sequence, the others stay in order. |
| SharedBufferProofs.SendBodyInRuns | task3/shr-mem-SYSV/src/sm_main.c:87-102 | In every interleaving the sender's critical section is entered with room for a byte, and its two steps, whatever steps of the receiver come between them, do to the block what the class promises. |
| SharedBufferProofs.ReceiveBodyInRuns | task3/shr-mem-SYSV/src/sm_main.c:123-143 | In every interleaving the receiver's critical section is entered with an unread byte, which is the one written, and its two steps, whatever steps of the sender come between them, take it out of the block as the class promises. |
| SharedBufferProofs.TransferIsSafe | task3/shr-mem-SYSV/src/sm_main.c:85-145 | In every reachable state of every interleaving the destination is a prefix of the source, the positions are byte counts modulo the size, at most `cap` bytes are unread and each is in its slot, and the semaphores count slots and mutual exclusion. |
| SharedBufferProofs.NoByteInvented | task3/shr-mem-SYSV/src/sm_main.c:123-140 | When the receiver writes, the slot holds the next source byte, announced and not yet written. |
| SharedBufferProofs.NeverBothBlocked | task3/shr-mem-SYSV/src/sm_main.c:85-131 | Until the receiver has left its loop one of the two can take a step, for every size from 1 on and every source. |
| SharedBufferProofs.SenderBlocksIff | task3/shr-mem-SYSV/src/sm_main.c:85-105 | Until the receiver leaves, the sender cannot step exactly when every slot holds an unread byte, the slot the receiver is giving back included, or the receiver is in its critical section, or it waits for status after its loop. |
| SharedBufferProofs.ReceiverBlocksIff | task3/shr-mem-SYSV/src/sm_main.c:121-131 | And the receiver exactly when all that was announced is taken, or the sender is in its critical section. |
| SharedBufferProofs.SenderAloneBlocksIff | task3/shr-mem-SYSV/src/sm_main.c:85-105 | When the receiver has left, the sender cannot step exactly when every slot is announced, or it waits for status, or it is done. |
| SharedBufferOutcome.EveryScheduleRuns | task3/shr-mem-SYSV/src/sm_main.c:85-145 | Every sequence of whole rounds of sender and receiver is possible that neither overfills the ring nor takes from an empty one, for every buffer and source. |
| SharedBufferOutcome.RingCanBeFilled | task3/shr-mem-SYSV/src/sm_main.c:85-102 | The sender can be any number of bytes ahead, up to the size of the ring, before the receiver takes anything. |
| SharedBufferOutcome.GoodEndIsPossible | task3/shr-mem-SYSV/src/sm_main.c:85-146 | From every reachable state before the receiver's end branch some continuation copies the whole source and ends both processes. |
| SharedBufferProofs.ReceiverLeaves | task3/shr-mem-SYSV/src/sm_main.c:121-145 | A run in which the receiver has not left has at most 15 steps per source byte and 16 more, and can be continued. |
| SharedBufferProofs.EndOfFile | task3/shr-mem-SYSV/src/sm_main.c:126-131 | When the end-of-file test succeeds, the whole source has been written if and only if the sender has posted full in its last round; otherwise exactly the last byte is missing and the sender is before that post. |
| SharedBufferOutcome.LastByteCanBeLost | task3/shr-mem-SYSV/src/sm_main.c:93-102 | For every buffer of at least two bytes and every non-empty source there is a run that loses the last byte. |
| SharedBufferOutcome.CompleteIff | task3/shr-mem-SYSV/src/sm_main.c:126-131 | The copy is complete under every scheduling if and only if the buffer has one byte or the source is empty. |
| SharedBufferOutcome.ProgramCompleteIff | task3/shr-mem-SYSV/src/sm_main.c:126-131 | With the program's buffer of 40 bytes only the empty file is copied completely under every scheduling. |
| SharedBufferOutcome.SenderEndsIff | task3/shr-mem-SYSV/src/sm_main.c:105-146 | Once the receiver sets status, the sender ends if and only if it then waited at line 105; otherwise it never does. |
| SharedBufferOutcome.SenderMayNeverEnd | task3/shr-mem-SYSV/src/sm_main.c:85-105 | For every buffer and source there is a run that copies everything and after which no continuation lets the sender end. |
| SignalTransfer.Receiver.TransferByte | task5/sig-transf/src/st_main.c:21-31 | The sender's bit loop against the two handlers turns counter 128 and out_char 0 into counter 0 and the byte sent, keeping counter equal to the mask and out_char to the bits above it. |
| SignalTransferProofs.CounterIsMask | task5/sig-transf/src/st_main.c:100-130 | Whenever the child is about to send a bit, the parent's counter is its weight and out_char the value of the higher bits of the same byte; before a first bit the byte before may be complete and not yet written. |
| SignalTransferProofs.PendingSignalIsTheBit | task5/sig-transf/src/st_main.c:104-108 | A signal pending at the parent is SIGUSR1 exactly if the bit in transfer is 1, SIGUSR2 exactly if it is 0. |
| SignalTransferProofs.InvKept | task5/sig-transf/src/st_main.c:21-130 | Every step of either process, and the alarm, keeps the two in step. |
| SignalTransferProofs.DestinationIsPrefix | task5/sig-transf/src/st_main.c:121-130 | For every source and interleaving, an alarm at any point included, the destination is a prefix of the source. |
| SignalTransferProofs.WholeFileArrives | task5/sig-transf/src/st_main.c:7-9 | When childexit ends the parent and no alarm went off, the destination is the whole source. |
| SignalTransferProofs.SignalsDoNotCoalesce | task5/sig-transf/src/st_main.c:104-112 | No signal is ever raised while one of its kind is pending at its target, and at most one signal is on its way. |
| SignalTransferProofs.NeverStalls | task5/sig-transf/src/st_main.c:104-130 | Until the parent has ended, one of the two can take a step. |
| SignalTransferProofs.TransferEnds | task5/sig-transf/src/st_main.c:100-116 | A run has at most 81 steps per byte of the file and 3 more. |
| SignalTransferProofs.CertainDespiteAlarmIff | task5/sig-transf/src/st_main.c:86-102 | With the alarm, the whole file is certain to arrive if and only if it is empty. |
| SignalTransferAlarm.AlarmOutcome | task5/sig-transf/src/st_main.c:86-130 | When the alarm ends the child, exactly the bytes of which the parent has had every bit arrive, or one more when the last bit of the next was sent and still pending; for every file, moment and scheduling. |
| SignalTransferAlarm.AlarmOutcomeHappens | task5/sig-transf/src/st_main.c:86-130 | Each of the possible outcomes of an alarm has a run. |
| SignalTransferAlarm.AlarmOutcomeBitsFirst | task5/sig-transf/src/st_main.c:86-130 | Where a pending bit is delivered before SIGCHLD the alarm has one outcome: the bytes the parent had whole, and one more if its last bit was pending. |
| SignalTransferAlarm.AlarmIsHarmlessIff | task5/sig-transf/src/st_main.c:12-14 | Whatever the scheduling after an alarm, the whole file arrives if and only if the parent has by then had every bit of it. |
| SignalTransferAlarm.AlarmAnyTime | task5/sig-transf/src/st_main.c:86-102 | The alarm can go off in a reachable state exactly if the child lives and has read a byte. |
| SignalTransferAlarm.EveryPrefixHappens | task5/sig-transf/src/st_main.c:100-130 | For every non-empty file and each of its prefixes, the whole included, some transfer that the alarm ends leaves exactly that prefix. |
| SignalTransferAlarm.WholeFileHappens | task5/sig-transf/src/st_main.c:100-130 | Every file can arrive whole without an alarm. |
| FramedPipe.LengthRoundTrip | task2/duplex-pipe/src/dp_pipe.c:25-51 | For every length up to 65024 the receiver's wrapped decoding of the two length bytes gives the length sent. |
| FramedPipe.LengthRoundTripIff | task2/duplex-pipe/src/dp_pipe.c:25-51 | The two bytes carry a length faithfully if and only if it is below 65536. |
| FramedPipe.NumberOfFrames | task2/duplex-pipe/src/dp_pipe.c:12-32 | A file makes len / 65024 + 1 frames. |
| FramedPipe.FramesAreNumbered | task2/duplex-pipe/src/dp_pipe.c:12-32 | Frame k carries the number 1 + k modulo 128, two bytes from which its length follows, and the k-th part of the file. |
| FramedPipe.RepeatedFramesAreDropped | task2/duplex-pipe/src/dp_pipe.c:46-54 | Every file arrives as it was when each of its frames comes any number of times in a row, at least once. |
| FramedPipe.MissingFrameCutsOff | task2/duplex-pipe/src/dp_pipe.c:46-54 | When the expected frame is missing, later frames are all dropped, as long as there are fewer than 128. |
| FramedPipe.PipeBuffer.Send | task2/duplex-pipe/src/dp_pipe.c:8-36 | The loop writes exactly the frames of the file, numbered and cut as FramesAreNumbered says, the last one not full, perhaps empty. |
| FramedPipe.PipeBuffer.Receive | task2/duplex-pipe/src/dp_pipe.c:37-58 | The loop over one reused buffer computes what the received frames mean, for any reads, dropping a frame whose number is not the next one (RepeatedFramesAreDropped, MissingFrameCutsOff). |
| FramedPipe.FullReadsAreFrames | task2/duplex-pipe/src/dp_pipe.c:44-46 | Cutting the stream into full reads gives back exactly the frames. |
| FramedPipe.FullReadsLoseNothing | task2/duplex-pipe/src/dp_pipe.c:44-45 | Full reads together return exactly the bytes that were written. |
| FramedPipe.RoundTrip | task2/duplex-pipe/src/dp_pipe.c:12-54 | For every file and any buffer contents, what the receiver writes is the file. |
| FramedPipe.Transfer | task2/duplex-pipe/src/dp_pipe.c:8-58 | The two loops back to back copy every file and never decode a length beyond the buffer. |
| FramedPipe.Echo | task2/duplex-pipe/src/dp_main.c:23-30 | Sent to the child and back, the file arrives as it was. |
| FramedPipeReads.CutLosesNothing | task2/duplex-pipe/src/dp_pipe.c:44-45 | Reads of any lengths that add up to the stream return exactly its bytes, in order. |
| FramedPipeReads.SafeCutsIff | task2/duplex-pipe/src/dp_pipe.c:37-54 | For every length of file and every sequence of read lengths: all files of that length come through unchanged, from the zeroed buffer or from any, if and only if the reads fall on the frame boundaries, or a last empty frame after a full one is cut before its last byte. |
| FramedPipeReads.OtherReadsSpoil | task2/duplex-pipe/src/dp_pipe.c:44-52 | For any other reads a file is built that the receiver does not write as it was. |
| FramedPipeReads.FirstByteAlone | task2/duplex-pipe/src/dp_pipe.c:44-52 | For every file, and whatever is read after it, a first read of one byte makes the receiver decode a length beyond its buffer. |
| FramedPipeReads.CutInData | task2/duplex-pipe/src/dp_pipe.c:44-54 | A read that ends within the data of the next frame spoils the file, whatever is read after, unless the buffer has at the cut the very byte that is missing. |
| FramedPipeReads.SecondFrameCut | task2/duplex-pipe/src/dp_pipe.c:44-52 | When the first frame is read whole and the second in part, every file that differs at the cut from its own byte a full load before is spoiled, whatever is read after. |
| FramedPipeReads.DroppedDataComesBack | task2/duplex-pipe/src/dp_pipe.c:44-54 | A header that is read alone after a dropped frame brings the beginning of that frame's data into the file. |
| Pipeline.RunCmd | task1/shell-wrapper/src/sw_run.c:11-46 | For every shell, number of commands and numbers pipe picks, each child's table is determined entry by entry: what the shell had, the write end of its pipe and the read end of the one before under their own numbers, and what dup2 and close leave on 0 and 1; the shell keeps its table and exactly the last read end more. |
| Pipeline.CopiedEndsStayOpen | task1/shell-wrapper/src/sw_run.c:33-40 | With 0 and 1 open in the shell, each child has one descriptor more than the shell had and each but the first two: a child that closes its stdin is still a reader of the pipe before it, one that closes its stdout still a writer of its own. |
| Pipeline.EndOfStream | task1/shell-wrapper/src/sw_run.c:27-41 | After run_cmd pipe i has no writer once child i is gone and no reader once child i + 1 is, for every shell; with 0 and 1 open in it, child i + 1 reads what child i writes. |
| Pipeline.Session | task1/shell-wrapper/src/sw_main.c:6-12 | For every shell, after m command lines with a command its table has grown by exactly m entries, all read ends, and nothing else in it has changed. |
| Pipeline.ConnectedIff | task1/shell-wrapper/src/sw_run.c:34-40 | With the lowest numbers picked, the commands of run_cmd are connected if and only if there are fewer than two, or the shell has 0 and 1 open, or there are two and it has 0 closed. |

## Left out

* Pausing the pool (`thpool_pause`, `thread_hold`, `thpool_resume`), thread names, allocation failures and
  more than one pool.
* Several callers of `thpool_wait` at a time: line 373 signals only one of them.
* The pool, the ring buffer and the signal transfer are state machines on values, because their point is
  interleaving; the classes beside them (`JobQueue`, `SharedMemory`, `Receiver`) show the updates in place.
* `MySemOpen`, `MySemRemove` and the layout of the shared block: `status`, the positions and the buffer are
  separate variables, and a semaphore operation is an atomic change of a counter.
* Failing system calls, and all `perror` and `exit` paths.
* The signal mask before the first `sigsuspend`, and the uninitialised set it is built from.
* The bits of a byte are modelled by shifting (`BitSet`); `BitIs` relates them to division.
* Tokenising of command lines, `execvp` and the collection of exit codes.
* The FIFO, message-queue, Monte Carlo, daemon and client-server programs: the same shapes in simpler form,
  or file and FIFO plumbing.

# Verified models of the thread pool, timer containers, text tools and small protocols

This project models the parts of the repository whose correctness is not
visible from reading one function: a thread pool, three timer containers, the
block-buffered tools cat, head and tail, a shared ring buffer, a join protocol,
a chat server's select pool and the mode-list interpreter of chmod.  It follows
the code.  Where the code falls short of what it is for, the project proves the
exact condition under which it does not, and gives an input on which it does.

Verify everything with `dafny verify dfyconfig.toml`.

## The modules

**Thread pool.**  `ThreadPool` is an interleaving state machine: workers, callers
of `thpool_wait`, callers of `thpool_add_job` and the destroyer each take one
atomic step at a time, in any order, with any number of each (and one destroyer).
A run is a list of actions; the results hold after every run. `PoolWaiting` says
what a caller of `thpool_wait` may rely on, `PoolWakeups` when one sleeps on, and
that the pool comes to rest, `PoolShutdown` what the destroyer does; `PoolRuns`
builds runs step by step.  `JobQueue` is the linked queue itself, and `PoolQueue`
shows that its operations are the machine's steps.  Three things turn out to
differ from what the code suggests: a worker that pops always finds a job, so the
null test at line 272 of `thpool/thpool.c` is never needed; `thpool_destroy` can
free the lock while the last worker still holds it, in a pool of any size but
zero; and `jobqueue_clear` reads each job it has just freed.

**Timer containers.**  `TimerNodes` holds the nodes and the doubly linked lists,
`TimerWheel` the wheel, `HeapOrder` and `TimerHeap` the heap, `TimerOrder` and
`TimerList` the sorted list.  `TimerTraces` compares the last two over traces of
operations, the list as meant; `TimerCoded` has the list as written, on values,
with its back links and its tail; and `TimerAgreement` shows that the operations
of both classes are steps of such traces. The time comes in as a parameter, and a
tick returns the timers it fires.  The wheel fires a timer one revolution late
when the slot count divides its ticks; adjusting a timer of the wheel drags its
old links along; `adjust_timer` never moves a timer of a list in order whose links
are right, because line 120 of `lib/lst_timer.hh` asks for a timer out of order on
both sides; and `del_timer` of the list leaves `tail` at a last timer it has taken
out, so that deleting the new last one dereferences null.  The list as meant
agrees with the heap on every trace.  The list as written follows no null link and
no link to a freed timer, keeps no deleted timer, and fires exactly the due
timers, exactly while every operation is sound: a timer to delete has its back
link right, and tail at it if it is the last; a changed expiry fits between its
neighbours', or else a wrong back link at the front makes the code move the timer,
and no back link leads to a freed one.  A back link that is wrong does no harm
until it is followed.

**Text tools.**  `LineNumber` is cat's decimal counter in a text buffer, `CatText`
what cat prints, as a transducer and line by line, `CatFlush` what a flush does
and where flushes cut the output, `CatTrack` how far a run has got, and `Cat` the
buffers, the sentinel and the loops; `CatLaws` says in the words of the usage what
each option does to the text.  `FileLines` says what the lines of a file are, by
counting newlines; `HeadTail` has `head -n`, `head -n -K` and `tail -n`,
`TailFrom` has `tail -n +K`, and `TailCount` the files on which that is right.
Reads of cat come in arbitrary non-empty chunks; head and tail read a regular file
block by block, for any block size.  Three faults stay in the model: the flush of
cat moves the unwritten rest with `strncpy`, which stops at a NUL (a flag of the
model puts a plain move in its place), so the output is right exactly if nothing
but NULs follows a NUL in each stretch a flush moves; `head -n -K` does not look
at the last byte of a file whose size is a multiple of the block size;
`tail -n +K` counts the bytes left in a block down by the distance from the start
of the block.

**Protocols.**  `BoundedBuffer` has the ring in shared memory, as a class, and the
writers and readers around it, as a state machine for any number of processes.
`Multijoin` has the threads that announce their end and the main thread that joins
them.  `SelectPool` is the chat server's table of clients, `SelectLaws` what its
loop keeps and `SelectTurns` what one pass does to each client.  `Counting` sums a
weight over a list of processes, for all three state machines.

**Mode lists.**  `Chmod` interprets a list of clauses the way the code does, a
mask being the set of the positions of its one-bits; `ChmodLaws` has the laws of
whole lists and `ChmodModes` what each kind of clause does to a mode, bit by bit.
Only the last operator of a clause is carried out, although the usage text allows
several; for clauses with two the laws say when that makes no difference.
`Wrappers` is an option type for all of them.

## Model

| member | source | states |
|---|---|---|
| ThreadPool.RunKeepsInv | thpool/thpool.c:235-299 | lock ownership, both counters, token accounting, job order and the waiters' knowledge hold together after every run |
| ThreadPool.EveryJobExactlyOnce | thpool/thpool.c:257-292 | jobs are popped in push order, and a popped job is either being executed by one worker or finished once |
| ThreadPool.PopFindsAJob | thpool/thpool.c:271-280 | a worker at its pop finds the queue non-empty, also during shutdown |
| ThreadPool.TokensBalance | thpool/thpool.c:160-168 | queued jobs and the destroyer's posts equal the semaphore's tokens plus those in the hands of workers and adders |
| PoolWaiting.WaitCoversEarlierJobs | thpool/thpool.c:170-178 | when a call of thpool_wait returns, every job pushed before the call has finished, although len is read without the queue's lock |
| PoolWaiting.WaitReturnsIdle | thpool/thpool.c:170-178 | when thpool_wait lets go of the lock no job is executing and all jobs pushed at its last read of len are done |
| PoolWakeups.NoLostWakeupIffOneWaiter | thpool/thpool.c:284-286 | whoever sleeps has work or a signal to come, in every run, exactly when at most one caller waits |
| PoolWakeups.SignalsWhenIdle | thpool/thpool.c:284-286 | in every run a worker about to signal finds no worker working |
| PoolWakeups.TwoWaitersLoseAWakeup | thpool/thpool.c:284-286 | with two callers the signal wakes one, and a run leaves the other asleep with nothing left to do |
| PoolWakeups.RestingPoolIsIdle | thpool/thpool.c:257-292 | a pool that can take no step by itself while running holds no work |
| PoolWakeups.RestingPoolHasReturned | thpool/thpool.c:170-178 | with one waiter, a pool that can take no step by itself has let thpool_wait return |
| PoolWakeups.InternalRunsEnd | thpool/thpool.c:257-298 | a run of the pool's own steps is no longer than a measure of its state, whoever is scheduled |
| PoolShutdown.EveryThirdStepPosts | thpool/thpool.c:191-199 | in every run, running is 0 from the destroyer's first step on, and as long as workers are left exactly every third step of his posts has_job, whatever the others do |
| PoolShutdown.ShutdownEmptiesThePool | thpool/thpool.c:191-199 | once the destroyer has taken three steps a token is on its way as long as workers are left, so a pool at rest has no live thread |
| PoolShutdown.ShutdownTakesBoundedSteps | thpool/thpool.c:191-199 | whatever happens once the destroyer has taken three steps, his further posts and new calls included, workers and callers take no more steps than a measure of the state then and four for each call or spurious wakeup; after so many every worker has left, and until then one can take a step |
| PoolShutdown.DestroyReturns | thpool/thpool.c:191-211 | thpool_destroy returns in every run in which he takes three steps, the pool comes to rest and he takes four more |
| PoolShutdown.DestroyCanReturn | thpool/thpool.c:191-211 | from every state reachable after the call some continuation ends with the pool destroyed |
| PoolShutdown.NobodyUsesADestroyedQueue | thpool/thpool.c:195-201 | once jobqueue_destroy starts every worker has left, or is releasing its lock |
| PoolShutdown.DestroyRacesWithTheLastWorker | thpool/thpool.c:195-211 | whatever the number of workers, from one, and of waiters, a run in which the pool is destroyed while the last worker holds the lock |
| PoolShutdown.SafeDestroyIffNoWorkers | thpool/thpool.c:195-211 | in every run the destroyer finishes with the lock in no worker's hands, exactly if the pool has no workers |
| JobQueue.Queue.constructor | thpool/thpool.c:315-324 | a new queue is empty |
| JobQueue.Queue.Push | thpool/thpool.c:339-349 | the job goes to the back; the queue stays well formed exactly when the job's link was cleared |
| JobQueue.Queue.Pop | thpool/thpool.c:351-368 | the oldest job comes out, null only when there is none |
| JobQueue.Queue.Clear | thpool/thpool.c:326-338 | every waiting job is freed once, oldest first; a freed job is read exactly if one was waiting |
| PoolQueue.PushStep | thpool/thpool.c:339-349 | the linked queue's push is the pool's push step |
| PoolQueue.PopStep | thpool/thpool.c:271-280 | the linked queue's pop is what a worker's pop step does to the pool, and null sends it on without a job |
| PoolQueue.ClearStep | thpool/thpool.c:201-201 | the linked queue's clear is the destroyer's clear step |
| TimerWheel.AddedTicksLeft | lib/wheel_timer.hh:79-86 | slot and rotations of a timer just added mean the delay asked for, one revolution more if 60 divides it |
| TimerWheel.FiresOnTimeIff | lib/wheel_timer.hh:79-86 | a timer just added fires after exactly expire - now ticks if and only if it expires in the future and 60 does not divide them |
| TimerWheel.TickDown | lib/wheel_timer.hh:145-155 | moving the hand takes one tick off what slot and rotations mean, and a timer is due exactly when one is left |
| TimerWheel.Wheel.AddTimer | lib/wheel_timer.hh:72-105 | from expire and now alone: the timer is to fire after one tick if it expires now, after expire - now ticks if later, 60 more if 60 divides them, and within 60 if earlier; not ok exactly if its slot index would be negative; the links stay sound exactly when the timer brings no stale ones |
| TimerWheel.Wheel.DelTimer | lib/wheel_timer.hh:113-139 | exactly that timer leaves its slot's list and the countdown, order kept; not ok, and nothing changed, exactly if it is not in the wheel, where the search leaves the slots or dereferences null |
| TimerWheel.Wheel.AdjustTimer | lib/wheel_timer.hh:107-111 | a timer of the wheel with a slot to go to gets the delay that adding it gives, from its expiry and now alone, and the wheel stays sound exactly when its old links were clear where it goes; not ok in all other cases, the timer then being outside |
| TimerWheel.Wheel.AdjustClearingLinks | lib/wheel_timer.hh:107-111 | with the old links cleared between delete and add, adjusting keeps the wheel sound for every timer and expiry, the delay being that of adding it |
| TimerWheel.AdjustCanBreakTheWheel | lib/wheel_timer.hh:107-111 | two timers of one second, the older one adjusted: the lists are no longer sound |
| TimerWheel.Wheel.Tick | lib/wheel_timer.hh:140-189 | fires exactly the timers with one tick left and brings all others one tick closer, deleting exactly the fired nodes |
| TimerWheel.Wheel.Run | lib/wheel_timer.hh:140-189 | over any number of ticks each timer fires exactly once, on the tick its countdown said |
| TimerWheel.AddedTimerFires | lib/wheel_timer.hh:72-189 | a timer added and the wheel left running: it is fired once, on tick expire - now, on the first if it expires now, and 60 ticks later if 60 divides them |
| HeapOrder.RootIsLeast | lib/heap_timer.hh:64-79 | with parent i/2 the root holds the least expiry |
| HeapOrder.Adjusted | lib/heap_timer.hh:145-155 | after one key change the comparison with the parent tells which way the key has to go |
| HeapOrder.TakenHeap | lib/heap_timer.hh:173-181 | putting the last timer into a slot leaves the heap out of order there only, and the comparison tells which way |
| TimerHeap.Heap.PercolateUp | lib/heap_timer.hh:64-79 | a key too small for its place rises until the heap is in order, no timer lost |
| TimerHeap.Heap.PercolateDown | lib/heap_timer.hh:46-62 | a key too large sinks until the heap is in order, also from index 0, which is its own child |
| TimerHeap.Heap.Resize | lib/heap_timer.hh:81-89 | doubles the capacity and keeps the timers in place |
| TimerHeap.Heap.GetIdx | lib/heap_timer.hh:91-98 | finds the timer's slot, or size if it is not there |
| TimerHeap.Heap.AddTimer | lib/heap_timer.hh:114-130 | heap order kept, exactly that timer gained |
| TimerHeap.Heap.AdjustTimer | lib/heap_timer.hh:132-157 | heap order restored after one timer's expiry was changed, same timers |
| TimerHeap.Heap.DelTimer | lib/heap_timer.hh:159-187 | heap order kept, exactly that timer lost, nothing if it is not there |
| TimerHeap.Heap.Tick | lib/heap_timer.hh:188-218 | fires exactly the timers that are due, in expiry order, and keeps exactly the others |
| TimerList.SortedList.AddBehind | lib/lst_timer.hh:49-67 | the timer goes before the first that expires no earlier, links and tail updated |
| TimerList.SortedList.AddTimer | lib/lst_timer.hh:89-111 | the timer goes to its place whatever links it brings, back links and tail as on values; the list ends well exactly unless an only timer brings a next link |
| TimerList.SortedList.DelTimer | lib/lst_timer.hh:125-142 | whatever the back links and tail: null is dereferenced, or the timer before keeps its link to the deleted one, or exactly that timer leaves, with the back links and tail, each as on values |
| TimerList.SortedList.AdjustTimer | lib/lst_timer.hh:113-124 | a timer is moved only if out of order towards both the timer its back link leads to and the next, to its place among the others, and otherwise nothing changes; back links and tail as on values |
| TimerList.SortedList.Tick | lib/lst_timer.hh:143-168 | fires the timers before the first that is not due |
| TimerOrder.AdjustNeverMoves | lib/lst_timer.hh:119-121 | in a list that was in order adjust_timer moves nothing, and order survives exactly when the new expiry fits |
| TimerOrder.AdjustLeavesTheListUnsorted | lib/lst_timer.hh:119-121 | a list on which an adjusted timer stays out of order |
| TimerTraces.FiresEveryDueTimerIff | lib/lst_timer.hh:148-163 | a list fires every due timer, whatever the time, exactly when it is in order |
| TimerTraces.MovingKeepsOrder | lib/lst_timer.hh:122-123 | taking the timer out and adding it again keeps the order, and exactly the same timers, for every new expiry |
| TimerTraces.MeantRefines | lib/lst_timer.hh:89-168 | each operation of the list as meant, moving adjustments and all deletions among them, is an operation of a timer container and keeps the list in order |
| TimerTraces.HeapAndListAgree | lib/heap_timer.hh:114-218 | over any trace heap and list as meant hold the same timers and fire the same ones at each tick, expiries in the same order |
| TimerCoded.AddKeepsLinksIff | lib/lst_timer.hh:89-111 | adding to a list that is one from both ends keeps it so exactly unless the timer comes to the front with a back link |
| TimerCoded.DeleteKeepsLinksIff | lib/lst_timer.hh:125-142 | deleting keeps it so exactly if tail tells whether the timer is the last |
| TimerCoded.TickKeepsLinks | lib/lst_timer.hh:143-168 | a tick keeps it so |
| TimerCoded.AdjustKeepsLinks | lib/lst_timer.hh:113-124 | adjusting a timer of such a list in order changes its expiry and nothing else |
| TimerCoded.SoundIsMeant | lib/lst_timer.hh:113-142 | a sound operation of the list as written does what is meant, whatever else is wrong with the back links |
| TimerCoded.CodedIsRightIffSound | lib/lst_timer.hh:113-168 | over a trace, the list as written follows no null link and none to a freed timer, keeps no deleted timer, and would at every point fire exactly the due timers, if and only if every operation is sound; the back links may be wrong meanwhile |
| TimerCoded.AdjustedTimerFiresLate | lib/lst_timer.hh:119-121 | a timer brought forward to the front is due and is not fired |
| TimerCoded.SecondDeleteDereferencesNull | lib/lst_timer.hh:129-135 | deleting the last of two timers and then the other one follows a null link |
| TimerCoded.BrokenLinkFiresRight | lib/lst_timer.hh:129-141 | deleting the last of two timers, adding it again in front and deleting it again leaves a back link to it, and ticks fire right all the same |
| TimerCoded.AdjustReadsAFreedTimer | lib/lst_timer.hh:119-121 | adjusting the timer with that back link, to whatever expiry, reads the freed one |
| TimerAgreement.HeapAdd | lib/heap_timer.hh:114-130 | the heap's add is the container's add |
| TimerAgreement.HeapDelete | lib/heap_timer.hh:159-187 | the heap's delete is the container's delete |
| TimerAgreement.HeapAdjust | lib/heap_timer.hh:132-157 | changing an expiry and adjusting the heap is the container's adjustment |
| TimerAgreement.HeapTick | lib/heap_timer.hh:188-218 | the heap's tick is the container's tick |
| TimerAgreement.ListAdd | lib/lst_timer.hh:89-111 | adding a timer with clear links is the add of the list as written |
| TimerAgreement.ListDelete | lib/lst_timer.hh:125-142 | deleting any timer of the list, with any back links and tail, is the delete of the list as written, null dereference and a timer left linked included |
| TimerAgreement.ListAdjust | lib/lst_timer.hh:113-124 | changing any expiry and adjusting, with any back links and tail that lead to no freed or wrong timer, is the adjustment of the list as written |
| TimerAgreement.ListTick | lib/lst_timer.hh:143-168 | the list's tick is the tick of the list as written, and fires what that fires |
| LineNumber.LineCounter.NextLineNum | cmd/src/cat.c:86-105 | the buffer holds the next number, digits and start position together |
| LineNumber.LineCounter.Printed | cmd/src/cat.c:39-52 | what is printed is the number in decimal, padded to six columns, and a tab, below 10 to the 18th; beyond, a mark and seventeen digits |
| LineNumber.DecimalReadsBack | cmd/src/cat.c:47-52 | the decimal text reads back as the number and has no leading zero |
| CatText.OutputIsByLine | cmd/src/cat.c:230-285 | the character-by-character transducer prints what the options mean line by line |
| CatText.CutAnywhere | cmd/src/cat.c:54-55 | cutting the input anywhere and carrying the state over changes nothing |
| CatLaws.EndsAndTabs | cmd/src/cat.c:255-276 | without -n and -s the output is the input with ^I for every tab under -T and a dollar sign put in front of every newline under -E |
| CatLaws.SqueezeDropsBlanks | cmd/src/cat.c:237-247 | with -s the output is what the other options make of the text less the newline of every blank line behind a blank line |
| CatLaws.NumbersCountLines | cmd/src/cat.c:249-268 | with -n each line has in front of it one more than the number of lines before; with -b of lines with text, and a blank line nothing |
| CatLaws.NumberIsPadded | cmd/src/cat.c:39-52 | below ten to the 18th that is: blanks up to six columns, the number's digits, which read back as the number, and a tab |
| Cat.Process.Strncpy | cmd/src/cat.c:214-214 | copies a block up to its first NUL and fills up with NULs |
| Cat.Process.Move | cmd/src/cat.c:214-214 | moves the bytes left over to the front, all of them, as meant |
| Cat.Process.Flush | cmd/src/cat.c:196-216 | whole blocks go out in order and the rest goes to the front, through strncpy as written or a move as meant |
| CatFlush.StrncpyCopiesIff | cmd/src/cat.c:214-214 | strncpy copies a block unchanged exactly when nothing but NULs follows a NUL in it, and otherwise only turns bytes into NUL |
| CatFlush.FlushKeepsIff | cmd/src/cat.c:196-216 | a flush with strncpy loses nothing exactly when strncpy copies the part it moves |
| Cat.Process.PutNumber | cmd/src/cat.c:251-252 | the next number's text is appended within twenty bytes |
| Cat.Process.PutNewline | cmd/src/cat.c:236-259 | one newline of the input has the transducer's effect on output, state and number |
| Cat.Process.PutText | cmd/src/cat.c:270-285 | the text of a line is appended up to a newline or the sentinel, two bytes a character at most |
| Cat.Process.Pass | cmd/src/cat.c:193-265 | one pass of the do loop, a flush and then a read or a newline, brings the run on: what is out, what is to come and the cuts still to be made stay the same in sum |
| Cat.Process.Cat | cmd/src/cat.c:176-287 | a file read in any chunks has the transducer's output and final state and the cursor never leaves the buffer; with strncpy that is so exactly if every stretch of the output that a flush moves copies, and a byte can differ only by having become NUL |
| Cat.Concatenate | cmd/src/cat.c:364-410 | any files in any blocks and reads print what the options mean line by line for their concatenation: always with a move in the flush; with strncpy exactly if every stretch of that text that a flush moves copies, as in all text without NULs |
| Cat.NulIsDestructive | cmd/src/cat.c:214-214 | for every block size a file, a block of text, a NUL and one character more, of which a flush cuts off a stretch that does not copy |
| Cat.DamagedFile | cmd/src/cat.c:364-410 | cat as written does not print that file right |
| FileLines.LineStartSplits | cmd/src/head.c:159-171 | a character belongs to the first k lines exactly when fewer than k newlines precede it |
| FileLines.FirstAreKLines | cmd/src/head.c:140-176 | the first k lines are k lines, or the whole file |
| FileLines.LastAreKLines | cmd/src/tail.c:142-232 | the last k lines are k lines, or the whole file |
| HeadTail.CopyFd | cmd/src/head.c:115-138 | copies the bytes asked for, or up to the end of the file |
| HeadTail.HeadLines | cmd/src/head.c:140-176 | prints the first lines and leaves the file offset right behind them, for every block size |
| HeadTail.TailLines | cmd/src/tail.c:142-232 | prints exactly the last lines, for every count and block size |
| HeadTail.ElideTailLines | cmd/src/head.c:184-275 | prints all but the last lines, and one line less if the file ends inside a line at the end of a block |
| HeadTail.ElideTailIsRightIff | cmd/src/head.c:206-219 | head -n -K is right, and cuts the file in two with tail -n K, exactly when that case does not arise |
| TailFrom.ElideHeadLines | cmd/src/tail.c:251-334 | prints what the block-by-block search as written finds |
| TailCount.FoundAllIff | cmd/src/tail.c:290-310 | the search of a block finds every newline it should exactly when no line before is longer than what the count has left, the block less the ends of all lines found, modulo the width of size_t |
| TailCount.RightOnFileIff | cmd/src/tail.c:251-334 | tail -n +K is right on a file exactly when there is nothing to skip or, block by block, the search finds the last newline to skip, or stays in the block and misses none that matters; tail -n +0 prints nothing |
| TailCount.RightOnEveryFileIff | cmd/src/tail.c:262-310 | tail -n +K is right on every file exactly when K is 1 to 3, or not 0 and the blocks are single bytes |
| TailCount.HeadAndFromPartitionIff | cmd/src/tail.c:251-334 | the first K lines and what tail -n +(K+1) prints make up a file exactly under that condition |
| TailFrom.MeantIsRight | cmd/src/tail.c:251-334 | with the bytes behind the line found as the bytes left, tail -n +K is right, and makes up the file with the lines before, for every file, K and block size |
| BoundedBuffer.Mem.constructor | ipc/mem.h:23-27 | a new ring is empty |
| BoundedBuffer.Mem.MemWrite | ipc/mem.h:37-44 | the value goes behind the others in a ring with room |
| BoundedBuffer.Mem.MemRead | ipc/mem.h:29-35 | the oldest value comes out of a ring that is not empty |
| BoundedBuffer.FreeRingHoldsTheUnread | ipc/mem.h:29-44 | whenever no process is inside the ring it holds, as the class has it, exactly the unread values |
| BoundedBuffer.ReadsFollowWrites | ipc/memwrite.c:19-32 | values read are a prefix of values written, at most five behind; semaphores and processes in flight make up five |
| BoundedBuffer.WritersKeepTheirWord | ipc/memwrite.c:24-32 | what the steps of a writer add to the values written is what it set out to write, in its order, but for one value it may have in hand |
| BoundedBuffer.NoLostOrStaleValue | ipc/mem.h:29-44 | no step overwrites an unread value or reads anything but the oldest unread one |
| BoundedBuffer.NeverStuck | ipc/memread.c:19-26 | with a writer and a reader some process can always go on |
| Multijoin.CountersAreRight | threads/thread_multijoin.c:39-48 | whenever the mutex is free numUnjoined counts the ended threads not joined and numLive those not joined |
| Multijoin.NoMissedWakeup | threads/thread_multijoin.c:91-96 | if main sleeps while a thread waits to be joined, a signal is still due |
| Multijoin.NeverStuck | threads/thread_multijoin.c:85-117 | until main is finished some step is possible; joining under the mutex does not deadlock |
| Multijoin.EachJoinedOnce | threads/thread_multijoin.c:98-112 | at the end every thread has been joined exactly once |
| Multijoin.RunsEnd | threads/thread_multijoin.c:82-117 | the length of a run is bounded by the number of threads and of spurious wakeups |
| SelectPool.ClientPool.constructor | net/chat_server_select.c:54-71 | all slots free, only the listening socket watched |
| SelectPool.ClientPool.AddClient | net/chat_server_select.c:73-93 | the first free slot is taken and watched, or the table is full |
| SelectPool.ClientPool.Tell | net/chat_server_select.c:155-163 | the broadcast has the effect specified for all slots up to maxi |
| SelectPool.ClientPool.Serve | net/chat_server_select.c:111-166 | one ready client has the effect specified for writing, leaving, naming itself or speaking |
| SelectPool.ClientPool.CheckClients | net/chat_server_select.c:95-168 | the pass has the effect specified slot by slot |
| SelectLaws.BroadcastReaches | net/chat_server_select.c:155-163 | a message reaches every other client that has given its name and nobody else |
| SelectLaws.LoopKeepsOk | net/chat_server_select.c:192-218 | after any number of iterations each client is read from with nothing to write, or written to with a buffer; maxi and maxfd cover all |
| SelectLaws.ReadySlots | net/chat_server_select.c:99-110 | the ready slots of a snapshot, exactly and in table order |
| SelectLaws.StoppingEarlyIsSafe | net/chat_server_select.c:99-110 | counting nready down and stopping at maxi serves exactly the slots ready in the snapshot, as going through the whole table would |
| SelectLaws.CountIsEnough | net/chat_server_select.c:198-216 | what select returns counts every ready client, also after the listening socket is taken off |
| SelectLaws.EveryReadyClientIsServed | net/chat_server_select.c:192-218 | in every iteration of every run the slots served are exactly those ready in the snapshot, whatever serving the others does |
| SelectLaws.ServerRuns | net/chat_server_select.c:54-71 | from init_pool on, whatever has happened: the pool is sound, and the next iteration serves exactly the ready clients, those written to from a buffer that is there |
| SelectLaws.WritersHaveBuffers | net/chat_server_select.c:111-119 | in every iteration of every run each client written to has, when its turn in the pass comes, a slot's buffer waiting, so the write never starts from a null pointer |
| SelectLaws.SelectSeesEverybody | net/chat_server_select.c:198-198 | nobody watched is beyond maxfd |
| SelectTurns.ServedIs | net/chat_server_select.c:111-166 | serving a slot: written to, it keeps its client with nothing left to write; read from, it is freed if recv returned 0, has a name otherwise, and if it had one already exactly the others who are there and have a name are given its slot to write from; nobody else's record changes |
| SelectTurns.PassIs | net/chat_server_select.c:95-168 | in every iteration of every run, every slot of the 32 after the pass, from the table before it, what select reported and what recv returned; clients with nothing to write are watched for reading, the others for writing |
| SelectTurns.LeavesIffClosed | net/chat_server_select.c:120-151 | a client leaves in a pass exactly if it is read from and recv returns 0; any other stays, and has a name once it has been read from |
| SelectTurns.NewcomerIs | net/chat_server_select.c:73-93 | a new client takes the first free slot, unnamed, with nothing to write and watched for reading |
| Chmod.GetIdx | cmd/src/chmod.c:52-59 | the first position of a character, or -1 |
| Chmod.Search | cmd/src/chmod.c:61-67 | whether a character occurs in a stretch |
| Chmod.String2Octal | cmd/src/chmod.c:110-124 | the bits of an octal number, or an error at any other character |
| Chmod.NextClause | cmd/src/chmod.c:248-259 | where a clause ends and which operator is its last |
| Chmod.OctalClause | cmd/src/chmod.c:262-297 | an octal clause has the specified effect on the groups, or is rejected |
| Chmod.SymbolicClause | cmd/src/chmod.c:298-361 | a clause with letters has the specified effect on the groups named, or is rejected |
| Chmod.OldBits | cmd/src/chmod.c:226-234 | the groups' bits are those of the mode |
| Chmod.ResetBits | cmd/src/chmod.c:370-376 | the new mode has the groups' bits and otherwise those of the old |
| Chmod.ProcessModeList | cmd/src/chmod.c:225-376 | the list's clauses are applied in order, or the list is rejected and nothing changes |
| ChmodLaws.ListIsClearThenSet | cmd/src/chmod.c:242-376 | a valid list without copy clauses clears a fixed set of the handled bits and sets another, whatever the file, and touches no other bit |
| ChmodLaws.TwiceIsOnce | cmd/src/chmod.c:242-376 | applying such a list twice is applying it once |
| ChmodLaws.SplitAtAComma | cmd/src/chmod.c:363-367 | A,B is A and then B if B copies no group |
| ChmodLaws.SplitIsHarmlessIff | cmd/src/chmod.c:321-329 | every B does the same after a comma and by itself exactly when A leaves no set-id permission on others |
| ChmodLaws.OnlyTheLastOperatorCounts | cmd/src/chmod.c:248-255 | a clause with two operators does what it does without the first and its letters |
| ChmodLaws.TwoOperatorsAreRightIff | cmd/src/chmod.c:248-255 | a clause with two operators on named groups does for every mode what carrying out both in order does, exactly if the second is = or names every permission the first touches |
| ChmodLaws.FirstOperatorIsLost | cmd/src/chmod.c:248-255 | u+r-w on a file without permissions gives none |
| ChmodLaws.NobodyNamedDoesNothing | cmd/src/chmod.c:298-318 | a clause of two operators that names nobody, and so should be for everybody, changes nothing |
| ChmodLaws.OctalListIs | cmd/src/chmod.c:262-297 | an octal list sets, adds or removes exactly the handled bits of its number |
| ChmodModes.SymbolicClauseIs | cmd/src/chmod.c:298-361 | a clause of letters sets, adds or takes away, by bit position, exactly the bits r, w, x and s stand for with the groups named, everybody if nobody is named, and no other bit |
| ChmodModes.CopyClauseIs | cmd/src/chmod.c:321-329 | a clause like g=u does the same with the permissions that group has in the mode |
| ChmodModes.OctalClauseIs | cmd/src/chmod.c:262-297 | an octal clause does the same with the bits of its digits, three to a digit |
| ChmodModes.RejectedIff | cmd/src/chmod.c:257-361 | which clauses with an operator are rejected, by their characters |
| ChmodModes.NoOperatorIsRejected | cmd/src/chmod.c:257-259 | a clause without one always is |
| ChmodModes.ListRejectedIff | cmd/src/chmod.c:363-367 | and a list exactly if one of its parts is |
| ChmodLaws.ValidForEveryFile | cmd/src/chmod.c:258-259 | whether a list is valid does not depend on the file |

## Left out

- Cat.Concatenate: takes blocks of at least nine bytes, because with smaller ones two line numbers may not fit behind a full block; real block sizes are far larger.
- TailFrom.ElideHeadLines: reports a search that leaves the bytes read without a newline as an overrun, and does not say what the memory beyond holds.
- JobQueue.Queue.Clear: takes freed memory to keep its contents until the link is read; what else it may hold is not part of the model.
- TimerList.SortedList.DelTimer: says that a timer unlinked from the wrong one stays linked, not what the list looks like then.
- TimerList.SortedList.AdjustTimer: does not cover a test that reads a freed timer, nor moving a timer whose back link leads to another one than that before it.
- TimerCoded.CodedIsRightIffSound: timers come with clear links, as new ones do, and a timer taken out counts as freed until its name is added again; TimerList.SortedList.AddTimer says what stale links do.
- BoundedBuffer.ReadsFollowWrites: assumes the ring is initialised once, before anybody uses it; each start of memwrite initialises it again.
- Integer widths are unbounded, except where the wrap of `size_t` decides the result of `tail -n +K`; file sizes beyond an int are not modelled.
- `thpool_pause` and `thpool_resume`, and the clean-up paths of `thpool_init`.
- System calls, their errors, interrupted and partial transfers: reads deliver chunks or blocks, writes append.
- Option parsing, the byte counts of head and tail (`-c`), the NUL line delimiter, headers and standard input of head and tail.
- `alarm`, signal masks, dynamic casts, printing and the freeing of timers; a timer's callback does not touch its container.
- The texts of the chat: which buffer is waiting is modelled, not what it holds, and neither are buffer sizes nor a client's loss of a message that the speaker overwrites.
- chmod over directories, its printing, `mode2str`, and the way options that look like modes are put together.
- `lib/processpool.hh`, `net/chat_server_poll.c`, `cmd/src/od.c`, `cp`, `pwd`, `chown`, the counter and sequence-number demonstrations, and the directories `signals`, `procexec` and `filebuff`: easier variants of what is here, or demonstrations of system calls.

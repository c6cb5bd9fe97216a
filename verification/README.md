# A model of demand paging, a hand-built monitor, a thread scheduler and a bounded buffer

The repository holds several small operating-system programs. This project models the four that
keep state in an interesting way, and proves what they are for.

**Demand paging with eviction** (`pa3_3/VMM2`). `translate` keeps a TLB, a page table with LRU and
FIFO stamps, a stack of free frames and physical memory in step, so that reading through it is
reading the backing store. `VirtualMemory` has the program's classes; each method is proved to take
the step that `Machine` defines on values. `Replacement` is the replacement strategy as it is meant
to be, one list of resident pages, and `Transparency` says when reading is right.
As shipped, `Tlb::invalidate` clears a local copy of the entry it finds
(`pa3_3/VMM2/tlb.cpp:113-122`), so the table keeps it, although the comments in `translate` and its
log line say that the entry is invalidated. Both versions are modelled, chosen by
`Config.clearing`. The result, `Transparency.AlwaysRightExactly`, is exact. With `n` frames, `t`
TLB slots and `p` pages, reading is right for every trace

- always, if `invalidate` reaches the table;
- as shipped, if and only if `n >= p`, or the strategy is LRU and `n >= 2t - 1`, or it is FIFO and
  `t == 1` or `t == n`.

With the built-in 256 pages and 16 slots, LRU needs 31 frames, and FIFO is right only with 16
frames, where eviction and slot reuse go round in step, or with no eviction at all. For all other
sizes a trace is constructed whose last read returns another page's byte (`TlbHistory`).
`Counters` says what every read answers and counts, and what the counters show after every trace,
whether or not it was read right.

**The hand-built monitor** (`pa2_2/proc_con`). Condition variables made of a flag, a counter and a
semaphore; any number of producers and consumers, interleaved statement by statement inside the
monitor (`Monitor`). No wakeup is lost although blocked producers are never counted down, the
main thread's way of telling the end is sound, there is no deadlock, and every interleaving stops.
No token is posted before a producer has parked.

**The round-robin scheduler** (`pa4_1`). A linked queue (`ThreadList`), an admission semaphore and
a timer handler, as interleaved atomic steps (`Scheduler`) and as objects that take those steps
(`SchedulerObjects`). Its check program computes the expected schedule on a ring of slots
(`RingOracle`); `EagerRuns` and `EagerAdmission` prove that the two schedules are the same when
freed places are refilled in creation order before the next tick. Every run of the scheduler, eager
or not, quits after a bounded number of steps. `TimeAccounting` bounds what the totals of run and
wait time lose by rounding, and `WorkerTimes` applies that to every worker of every run.

**The bounded buffer** (`pa3_1/pthread_1`), on counting semaphores (`BoundedBuffer`), and **the
earlier memory manager** (`pa3_2/VirtualMemoryManager`), which has no eviction (`NoEviction` on
values, `SimpleMemory` in objects, `SimpleCounters` for its counters and its TLB).

Sizes are parameters throughout: frames, slots, pages up to 256, buffer length, thread counts,
quanta, queue size. `Sequences` holds the facts about lists, counts and sums that the rest shares.
`dafny verify dfyconfig.toml` checks the whole project.

## Model

| member | source | states |
|---|---|---|
| Transparency.AlwaysRightExactly | pa3_3/VMM2/vmm.cpp:48-229 | every trace over every backing store is read right if and only if the invalidation reaches the table, or nothing is evicted, or LRU has 2t-1 frames, or FIFO has one slot or a slot per frame |
| Transparency.ShippedSizes | pa3_3/VMM2/globals.h:40-45 | with 256 pages, 16 slots and the shipped invalidation: LRU is always right iff it has 31 frames or more, FIFO iff it has 16, or 256 or more |
| Transparency.ClearingStaysGood | pa3_3/VMM2/tlb.cpp:103-128 | with an invalidation that clears the table's entry, for either strategy and any frame count, every read of every trace returns the backing-store byte, and the TLB agrees with the page table |
| Transparency.ClearedDropsVictim | pa3_3/VMM2/tlb.cpp:111-125 | stopping at the first match is enough: no valid entry for the victim page is left, and what is still valid is as it was |
| Transparency.ClearingKeepsOthers | pa3_3/VMM2/tlb.cpp:111-125 | and nothing else is touched: outside the slot filled, only the victim's entry changes, and only its flag |
| Machine.ClearsOnlyFrame | pa3_3/VMM2/tlb.cpp:111-125 | clearing a frame takes the flag of the first valid entry for it and leaves every other entry, and every page and frame number, as they were |
| Transparency.ShippedFollowsHistory | pa3_3/VMM2/vmm.cpp:48-199 | as shipped, after every trace, read right or wrong, resident pages and TLB entries are those of the history of loads and fills |
| Transparency.ShippedRun | pa3_3/VMM2/vmm.cpp:48-199 | as shipped, while no cached page loses its frame, the TLB agrees with the page table and all reads are right |
| Transparency.ShippedAccess | pa3_3/VMM2/vmm.cpp:48-199 | one access takes the machine and the history forward together, stale or not |
| Transparency.CoherentStaysGood | pa3_3/VMM2/vmm.cpp:48-199 | if the new history is coherent the TLB still agrees with the page table |
| Transparency.StaleReadIsWrong | pa3_3/VMM2/vmm.cpp:202-229 | once a cached page has lost its frame, reading it returns a byte of the page that took the frame |
| Transparency.SomeRunIsWrong | pa3_3/VMM2/tlb.cpp:103-128 | for all other sizes there is a trace that is read wrong, whatever memory held at first |
| Transparency.AccessFromGood | pa3_3/VMM2/vmm.cpp:48-199 | from an agreeing TLB a translation yields the page's frame, that frame holds the page, and page table, stack and memory step as without a TLB |
| TlbHistory.LruEnoughFrames | pa3_3/VMM2/vmm.cpp:73-81 | LRU with 2t-1 frames: after every access of every trace each page in the TLB is resident, because a TLB hit refreshes the stamp too |
| TlbHistory.VictimIsOldestEntry | pa3_3/VMM2/pagetable.cpp:203-226 | with 2t-1 frames the LRU victim can be cached only in the slot that this very fault overwrites |
| TlbHistory.LruTooFewFrames | pa3_3/VMM2/pagetable.cpp:203-226 | for every smaller number of frames, a trace after which LRU evicts a page that the TLB keeps: the bound is tight |
| TlbHistory.FifoInLockstep | pa3_3/VMM2/pagetable.cpp:228-251 | FIFO with a slot per frame: the TLB holds exactly the resident pages, in order of loading |
| TlbHistory.FifoOutOfStep | pa3_3/VMM2/pagetable.cpp:228-251 | FIFO with two slots or more and a different number of frames: a trace after which the TLB keeps an evicted page |
| TlbHistory.NoEvictionEnoughFrames | pa3_3/VMM2/physicalmemory.cpp:29-47 | with a frame for every page nothing is evicted and the TLB never goes stale |
| Replacement.LruKeepsMostRecent | pa3_3/VMM2/pagetable.cpp:90-96 | under LRU the n frames hold exactly the n most recently used distinct pages, in that order |
| Replacement.RecencyByLastUse | pa3_3/VMM2/pagetable.cpp:90-96 | the list of used pages is ordered by strictly decreasing time of last use |
| Replacement.FifoKeepsLastLoads | pa3_3/VMM2/pagetable.cpp:168-179 | under FIFO the n frames hold the last n loads, so the victim is the page loaded longest ago; faults are the number of loads |
| Replacement.LruInclusion | pa3_3/VMM2/pagetable.cpp:203-226 | what m frames hold under LRU is a prefix of what more frames hold |
| Replacement.LruFaultsMonotone | pa3_3/VMM2/vmm.cpp:107-110 | adding frames never adds a page fault under LRU |
| CacheOnly.RunIsBareRun | pa3_3/VMM2/vmm.cpp:73-194 | whenever the sizes fit, runs with and without the TLB have equal page table, free stack and memory; faults are those of the replacement strategy; lookups count the trace, and hits plus faults its translatable addresses |
| CacheOnly.ReadIsBareRead | pa3_3/VMM2/vmm.cpp:202-229 | one read gives the physical address and byte that the page table alone gives; it counts one lookup and exactly one of TLB hit, page hit and fault, by where the page was, or none beyond the page table |
| Counters.ReadCounts | pa3_3/VMM2/vmm.cpp:73-110 | from every state, stale or not, a read counts one lookup, and exactly one of TLB hit, page hit and fault unless the address is beyond the page table |
| Counters.ReadAnswers | pa3_3/VMM2/vmm.cpp:193-229 | from every state, the physical address is the offset asked for in the frame of the TLB entry, or of the page table, and the byte is the one there |
| Counters.AnswerInPagesFrame | pa3_3/VMM2/vmm.cpp:193-229 | from an agreeing TLB that frame is the page's in either case |
| Counters.ReadFills | pa3_3/VMM2/tlb.cpp:132-162 | a hit leaves the TLB alone; a miss fills the slot after the one filled last, going round, with the page and the frame of the answer |
| Counters.CountersAddUp | pa3_3/VMM2/vmm.cpp:73-110 | for every size, invalidation and trace: lookups count the trace, and TLB hits, page hits and faults together its translatable addresses |
| Counters.ShippedCounters | pa3_3/VMM2/vmm.cpp:73-110 | as shipped, after every trace, each counter is what the history of loads and fills says |
| Counters.MemoryStaysRight | pa3_3/VMM2/vmm.cpp:107-178 | for every size and trace the frame of every resident page holds that page: only the TLB ever goes wrong |
| CacheOnly.BareOrder | pa3_3/VMM2/pagetable.cpp:182-201 | the resident pages after a trace are those of the replacement strategy on the pages asked for |
| CacheOnly.TlbSizeIsInvisible | pa3_3/VMM2/tlb.cpp:53-60 | two TLBs of fitting sizes, clearing or not, answer alike after every trace |
| CacheOnly.MoreFramesFewerFaults | pa3_3/VMM2/vmm.cpp:107-178 | under LRU the whole machine, TLB included, never faults more with more frames |
| Machine.CoreAccessKeeps | pa3_3/VMM2/vmm.cpp:86-178 | each path (page hit, free frame, eviction) keeps table, stack and memory in step, keeps every loaded page in its frame and steps the resident list as the strategy does |
| Machine.FramesPartitioned | pa3_3/VMM2/physicalmemory.cpp:29-47 | every frame is either on the free stack or held by a resident page, never both and never neither |
| Machine.AccessKeepsOk | pa3_3/VMM2/vmm.cpp:48-199 | every translation keeps the machine's invariant and yields a frame of physical memory |
| Machine.PhysicalSplits | pa3_3/VMM2/globals.h:59-86 | splitting a physical address gives back the frame and offset it was joined from |
| Transparency.NextSlotAges | pa3_3/VMM2/tlb.cpp:156-162 | slots are filled in rotation: after a fill its slot has age 0 and every other slot is one fill older, below the table size |
| Machine.Find | pa3_3/VMM2/tlb.cpp:71-85 | the first valid entry for a page, or the table size if there is none |
| Machine.FindFrame | pa3_3/VMM2/tlb.cpp:111-125 | the first valid entry for a frame, or the table size if there is none |
| VirtualMemory.WriteOk | pa3_3/VMM2/pagetable.cpp:168-179 | writing an entry with the largest stamp makes its page the newest of the list; writing an invalid one removes the page; stamps stay sorted under either strategy |
| VirtualMemory.PageTable.constructor | pa3_3/VMM2/pagetable.cpp:56-83 | no page is valid, page i has frame i, and both stamps start at 0 |
| VirtualMemory.PageTable.AccessPageLru | pa3_3/VMM2/pagetable.cpp:90-96 | only the page's stamp changes, the next stamp is one larger, and the page moves to the front of the list |
| VirtualMemory.PageTable.AccessPage | pa3_3/VMM2/pagetable.cpp:99-117 | LRU moves the page to the front, FIFO does nothing; the mapping stays |
| VirtualMemory.PageTable.Lookup | pa3_3/VMM2/pagetable.cpp:120-134 | fails exactly beyond the table; otherwise returns the page's entry and counts as a use |
| VirtualMemory.PageTable.Rlookup | pa3_3/VMM2/pagetable.cpp:136-149 | succeeds exactly if some valid entry has the frame, and returns the last such entry and its page |
| VirtualMemory.PageTable.UpdatePageEntry | pa3_3/VMM2/pagetable.cpp:168-179 | the entry gets both stamps and both advance; the new list and mapping for valid and invalid entries, although evictions advance the stamps too |
| VirtualMemory.PageTable.FindVictimByLru | pa3_3/VMM2/pagetable.cpp:203-226 | the search by stamps finds the frame of the page at the back of the list |
| VirtualMemory.PageTable.FindVictimByFifo | pa3_3/VMM2/pagetable.cpp:228-251 | the search by stamps finds the frame of the page at the back of the list |
| VirtualMemory.PageTable.FindVictim | pa3_3/VMM2/pagetable.cpp:182-201 | under either strategy the victim is the frame of the page at the back of the list |
| VirtualMemory.Tlb.constructor | pa3_3/VMM2/tlb.cpp:53-60 | all slots are invalid and the next slot is the first |
| VirtualMemory.Tlb.Lookup | pa3_3/VMM2/tlb.cpp:63-100 | hits exactly if a valid entry has the page, with the frame of the first such entry |
| VirtualMemory.Tlb.Invalidate | pa3_3/VMM2/tlb.cpp:103-128 | as shipped the table does not change |
| VirtualMemory.Tlb.InvalidateInTable | pa3_3/VMM2/tlb.cpp:103-128 | as intended, the first valid entry for the frame becomes invalid and nothing else changes |
| VirtualMemory.Tlb.AddEntry | pa3_3/VMM2/tlb.cpp:132-153 | exactly the next slot in rotation is overwritten |
| VirtualMemory.WorkingSet.constructor | pa3_3/VMM2/physicalmemory.cpp:29-33 | all frames are free, frame 0 on top |
| VirtualMemory.WorkingSet.GetFreeFrame | pa3_3/VMM2/physicalmemory.cpp:39-47 | pops the top, or returns -1 from an empty stack |
| VirtualMemory.PhysicalMemory.LoadFrame | pa3_3/VMM2/physicalmemory.cpp:98-117 | writes exactly the frame, and fails exactly for a frame number out of range |
| VirtualMemory.VirtualMemoryManager.constructor | pa3_3/VMM2/vmm.cpp:36-44 | the manager starts in the model's initial state |
| VirtualMemory.VirtualMemoryManager.EvictVictim | pa3_3/VMM2/vmm.cpp:127-149 | the frame found by stamps and the page found by reverse lookup are those of the page at the back, which leaves the table |
| VirtualMemory.VirtualMemoryManager.TakeFrame | pa3_3/VMM2/vmm.cpp:121-149 | a free frame if there is one, otherwise the victim's; a frame can always be had |
| VirtualMemory.VirtualMemoryManager.PageFault | pa3_3/VMM2/vmm.cpp:107-178 | one fault is counted, the page is in memory and mapped, and nothing but the victim is lost |
| VirtualMemory.VirtualMemoryManager.LookupOrLoad | pa3_3/VMM2/vmm.cpp:86-178 | hit or fault, with the matching counter, as the model's step |
| VirtualMemory.VirtualMemoryManager.TlbMiss | pa3_3/VMM2/vmm.cpp:83-191 | a TLB miss takes the model's step, filling the TLB |
| VirtualMemory.VirtualMemoryManager.TlbHit | pa3_3/VMM2/vmm.cpp:73-81 | a TLB hit, on a stale entry too, is counted, and only tells the page table of the use |
| VirtualMemory.VirtualMemoryManager.Translate | pa3_3/VMM2/vmm.cpp:48-199 | fails exactly beyond the page table, changing nothing; otherwise takes the model's step and joins frame and offset |
| VirtualMemory.VirtualMemoryManager.ReadByte | pa3_3/VMM2/vmm.cpp:202-229 | state and answer are those of the model's read, failure included |
| VirtualMemory.Run | pa3_3/VMM2/main.cpp:113-130 | from a new manager, whenever the sizes fit, the answer to every address is the backing-store byte |
| NoEviction.SimpleAlwaysRightExactly | pa3_2/VirtualMemoryManager/vmm.cpp:46-193 | without eviction reading is right for every trace if and only if there is a frame for every page |
| NoEviction.RunInOrder | pa3_2/VirtualMemoryManager/physicalmemory.cpp:77-128 | while there are frames left, the k-th fault loads the k-th requested page into the k-th frame in turn, each page faults once, faults count distinct pages, and no live frame is overwritten |
| NoEviction.RunNumbers | pa3_2/VirtualMemoryManager/physicalmemory.cpp:77-128 | for every trace and size, wrapped round or not, the k-th requested page is mapped to the k-th frame in turn, and every TLB entry agrees with the page table |
| NoEviction.AnswerInTurn | pa3_2/VirtualMemoryManager/vmm.cpp:157-193 | for every trace and size, the physical address of the next answer is the offset asked for in the frame whose number in turn is that of the page's first request |
| SimpleCounters.SimpleReadCounts | pa3_2/VirtualMemoryManager/vmm.cpp:67-142 | every read counts one lookup, and exactly one of TLB hit, page hit and fault unless the address is beyond the page table |
| SimpleCounters.SimpleFollowsHistory | pa3_2/VirtualMemoryManager/tlb.cpp:63-133 | for every trace and size, the TLB holds the last pages filled, in rotation, and the page table every page asked for |
| SimpleCounters.SimpleCounts | pa3_2/VirtualMemoryManager/vmm.cpp:46-193 | for every trace and size, each counter is that of a manager with a frame for every page |
| NoEviction.WrapsOntoFirst | pa3_2/VirtualMemoryManager/physicalmemory.cpp:120-128 | one page too many is loaded over the first page, which the table still maps there |
| NoEviction.WrongAfterWrap | pa3_2/VirtualMemoryManager/vmm.cpp:166-193 | with fewer frames than pages, a trace after which reading address 0 is wrong |
| NoEviction.FirstRequestsFit | pa3_2/VirtualMemoryManager/vmm.cpp:99-142 | the pages requested, each listed once in order of first request, are never more than the page table has |
| SimpleMemory.RoundRobinMemory.AddPage | pa3_2/VirtualMemoryManager/physicalmemory.cpp:77-98 | exactly the next frame in turn, whatever it holds, receives the page |
| SimpleMemory.SimpleManager.Translate | pa3_2/VirtualMemoryManager/vmm.cpp:46-163 | takes the model's step and joins frame and offset; fails exactly beyond the page table, changing nothing |
| SimpleMemory.SimpleManager.ReadByte | pa3_2/VirtualMemoryManager/vmm.cpp:166-193 | state and answer are those of the model's read |
| Monitor.RunKeeps | pa2_2/proc_con/monitor.c:130-295 | every interleaving, for any numbers of threads and insertions, keeps exclusion, truthful flags, counts, tokens from both sides, wakeups and conservation |
| Monitor.NoLostWakeup | pa2_2/proc_con/monitor.c:135-191 | with the monitor free and a consumer parked unsignalled, items never exceed tokens plus woken consumers; and free slots likewise for parked producers, whose count is never lowered |
| Monitor.ProducersCounted | pa2_2/proc_con/monitor.c:141-153 | in every state of every interleaving the count of blocked producers is how often producers have parked, and the tokens are the removals that signalled, those after the first parking, less the wakeups |
| Monitor.CountNeverLowered | pa2_2/proc_con/monitor.c:262-269 | the count of blocked producers never falls |
| Monitor.NoTokenBeforeParking | pa2_2/proc_con/monitor.c:262-269 | while that count is zero there is no token, nobody parked and nobody woken |
| Monitor.OccupancyInBounds | pa2_2/proc_con/monitor.c:262-274 | surplus producer tokens are harmless: items in the buffer stay between none and its length, and whoever goes in finds room, or an item |
| Monitor.TerminationDetectionSound | pa2_2/proc_con/main.c:139-151 | with the producers joined, a blocked count of all consumers means the buffer is empty and everything inserted was removed |
| Monitor.StuckOnlyWhenDone | pa2_2/proc_con/main.c:131-151 | no deadlock: when no thread can move the producers are done and the count reads all consumers |
| Monitor.RunsAreBounded | pa2_2/proc_con/main.c:40-90 | every interleaving stops after at most 18 steps per insertion plus one per thread |
| Monitor.FinishedRunDeliversAll | pa2_2/proc_con/main.c:131-151 | an interleaving that can go no further has delivered every item, and the main thread can tell |
| Monitor.CanFinish | pa2_2/proc_con/main.c:131-151 | every interleaving can be carried on to one that can go no further |
| BoundedBuffer.RunKeeps | pa3_1/pthread_1/main.cpp:51-126 | in every interleaving each semaphore plus its tokens in flight equals the used, or free, part of the buffer, one thread at most holds the mutex, and what the main thread has seen stays true |
| BoundedBuffer.MovesInBounds | pa3_1/pthread_1/main.cpp:70-126 | whoever is about to move the index has the mutex alone and the index in bounds |
| BoundedBuffer.DrainDetectionExact | pa3_1/pthread_1/main.cpp:170-192 | with the producers joined, index 0 if and only if everything produced was consumed |
| BoundedBuffer.MainLeavesWhenDrained | pa3_1/pthread_1/main.cpp:178-192 | the main thread, polling under the mutex, has left its loop only when everything produced was consumed |
| BoundedBuffer.LookDecides | pa3_1/pthread_1/main.cpp:181-192 | with the mutex free, one look by the main thread is three steps that give the mutex back, and it leaves if and only if the index is 0 |
| BoundedBuffer.StuckOnlyWhenDrained | pa3_1/pthread_1/main.cpp:170-192 | no deadlock: when no producer or consumer can move and the main thread does not hold the mutex, the buffer is drained and consumers wait for items; if the main thread cannot move either it has left its loop |
| BoundedBuffer.ThreadStepsBounded | pa3_1/pthread_1/main.cpp:70-126 | in every interleaving producers and consumers make at most ten steps per item, however often the main thread polls |
| BoundedBuffer.FinishedRunDeliversAll | pa3_1/pthread_1/main.cpp:70-192 | an interleaving that can go no further has exactly ten steps of producers and consumers for each item, has delivered all, and the main thread has left its loop |
| BoundedBuffer.CanFinish | pa3_1/pthread_1/main.cpp:170-192 | every interleaving, wherever it has come, can be carried on to one that can go no further, in which the main thread has left its loop |
| BoundedBuffer.SomeRunFinishes | pa3_1/pthread_1/main.cpp:70-192 | so for all sizes there is a complete interleaving, and everything is delivered in it |
| Scheduler.RunKeeps | pa4_1/scheduler.c:109-211 | every interleaving of handler halves, admissions and exits keeps queue, places, charges and phases |
| Scheduler.PlacesConserved | pa4_1/worker.c:17-82 | semaphore, queue, workers on their way in and cancelled workers not yet gone add up to the queue size, which bounds the queue |
| Scheduler.WaitCanEnd | pa4_1/scheduler.c:301-308 | with the queue empty and workers left, some worker can take its next step in or out |
| Scheduler.WaitIsShort | pa4_1/scheduler.c:301-308 | the wait for the queue lasts at most three steps per worker, whatever the interleaving |
| Scheduler.StepsPerTick | pa4_1/worker.c:17-82 | every run is at most three steps per worker, one for the timer and two per call of the handler long |
| Scheduler.NeverStuck | pa4_1/scheduler.c:370-393 | until the scheduler has quit, some step is enabled in every reachable state |
| Scheduler.EveryRunQuits | pa4_1/scheduler.c:185-211 | every run longer than three steps per worker, one, and two per quantum has quit, with no assumption of fairness |
| Scheduler.LaterTick | pa4_1/scheduler.c:136-211 | the worker that is suspended is at the head; it loses one quantum and goes to the tail, or leaves when it was the last |
| Scheduler.QuitOnlyWhenDone | pa4_1/scheduler.c:185-211 | the scheduler quits only when every worker has had exactly its quanta and was cancelled exactly once |
| Scheduler.QuitAfterAllQuanta | pa4_1/scheduler.c:173-211 | it has quit if and only if the handler was called at least once more than the sum of all quanta |
| Scheduler.TickAfterQuit | pa4_1/scheduler.c:191-195 | a timer signal after quitting finds the queue empty and changes nothing |
| Scheduler.BoundedWaiting | pa4_1/scheduler.c:152-183 | a worker suspended in a queue of q runs again after exactly q-1 other turns, at most the queue size less one, whatever is admitted meanwhile |
| RingOracle.ExpectedTurns | pa4_1/smp5_tests.c:96-176 | the ring of slots produces, turn by turn, the schedule of the list (head runs, goes to the tail, freed places go to the next worker), and ends empty |
| RingOracle.RingReadsList | pa4_1/smp5_tests.c:112-176 | after any number of turns the ring, read from its index and skipping empty slots, is the list after as many turns |
| RingOracle.FillRing | pa4_1/smp5_tests.c:100-107 | the first workers, as many as fit, in creation order |
| RingOracle.SkipEmpty | pa4_1/smp5_tests.c:113-114 | the search stops at the next held slot, which passes over nothing but empty ones |
| RingOracle.TakeTurn | pa4_1/smp5_tests.c:143-175 | exactly the slot at the index changes: it loses a quantum, or goes to the next worker, or is emptied |
| RingOracle.NextTurn | pa4_1/smp5_tests.c:113-175 | skipping and taking the turn is one turn of the ring, by the first worker read from it |
| EagerRuns.EveryEagerRunFollowsRing | pa4_1/scheduler.c:136-211 | every run whose ticks find freed places refilled in creation order gives its turns in the ring's order, and has given all of them when it quits |
| EagerRuns.QueueIsRing | pa4_1/smp5_tests.c:112-176 | at every tick of such a run the queue, with the quanta left, is the ring after as many turns, read from its index and skipping empty slots |
| EagerRuns.TurnIsRingTurn | pa4_1/smp5_tests.c:112-176 | the turn that ends at a tick is the ring's next one, with the same worker and the same quanta left |
| EagerRuns.ScheduleAtTick | pa4_1/scheduler.c:185-211 | at every such tick the turns so far and the schedule from the present queue make up the ring's schedule |
| EagerAdmission.SchedulerFollowsRing | pa4_1/scheduler.c:370-393 | for all quanta and queue sizes there is such a run, refilled before every tick, and it ends by itself with exactly the ring's turns |
| ThreadList.ThreadInfoList.Size | pa4_1/list.c:6-21 | the walk ends, with the number of elements |
| ThreadList.ThreadInfoList.InsertHead | pa4_1/list.c:23-39 | the element is first, the rest in order behind it; -1 and no change for none |
| ThreadList.ThreadInfoList.InsertTail | pa4_1/list.c:41-59 | the element is last, the rest in order before it; -1 and no change for none |
| ThreadList.ThreadInfoList.Unlink | pa4_1/list.c:65-79 | all other elements are linked around the element, at either end too |
| ThreadList.ThreadInfoList.Remove | pa4_1/list.c:61-83 | exactly the element given leaves the list, wherever it was, and its links are cleared |
| SchedulerObjects.RoundRobin.constructor | pa4_1/scheduler.c:64-86 | nobody queued, nobody running, the model's initial state |
| SchedulerObjects.RoundRobin.EnterSchedulerQueue | pa4_1/worker.c:51-66 | an admitted worker's element goes to the tail, as the model's insertion |
| SchedulerObjects.RoundRobin.LeaveSchedulerQueue | pa4_1/worker.c:71-82 | exactly the worker's element leaves the queue, wherever it is |
| SchedulerObjects.RoundRobin.SuspendWorker | pa4_1/scheduler.c:109-166 | one quantum charged and the clock suspended, whose run time alone grows (`RunAndWaitTimes`); from wherever it is to the tail, or out with its times added to the totals |
| SchedulerObjects.RoundRobin.HandlerUntilWait | pa4_1/scheduler.c:185-202 | the handler up to its wait takes the model's tick and steps every worker's clock by it, stamping only the running one; the totals grow only by a cancelled worker's times |
| SchedulerObjects.RoundRobin.NextWorkerUntilWait | pa4_1/scheduler.c:173-178 | quits when everyone is done, otherwise goes on to wait |
| SchedulerObjects.RoundRobin.NextWorkerAfterWait | pa4_1/scheduler.c:178-183 | the worker at the head of the queue |
| SchedulerObjects.RoundRobin.HandlerAfterWait | pa4_1/scheduler.c:202-211 | the head of the queue becomes current and every clock is stepped by the resumption, stamping only its |
| SchedulerObjects.RoundRobin.ReachableCurrentAtHead | pa4_1/scheduler.c:152-183 | in every state of every run in which the handler can be called the current worker is at the head |
| TimeAccounting.DifferenceError | pa4_1/scheduler.c:465-467 | one conversion to microseconds is off by less than one microsecond, whichever way the clock went |
| TimeAccounting.TruncatedDiv | pa4_1/scheduler.c:465-467 | the quotient towards zero, for either sign |
| TimeAccounting.DifferenceReversed | pa4_1/scheduler.c:465-467 | an interval measured the other way round is as long, with the other sign |
| TimeAccounting.RunAndWaitTimes | pa4_1/scheduler.c:42-60 | after k turns run time is the sum of all stretches from resumption to suspension, and wait time of all from creation or suspension to resumption, each within k microseconds |
| TimeAccounting.TimesTelescope | pa4_1/scheduler.c:42-60 | after k turns run plus wait time differs from last suspension minus creation by less than 2k microseconds |
| WorkerTimes.ClockTakesTurns | pa4_1/scheduler.c:91-166 | in every run the clock of every worker has been through exactly as many turns as the worker was charged, plus its resumption while it runs |
| WorkerTimes.ClockRecords | pa4_1/scheduler.c:42-60 | in every run, for every worker: run time is the time that passed while it ran, wait time the time that passed while it did not, up to its last stamp, each within a microsecond per stretch |
| WorkerTimes.WorkerTimesTelescope | pa4_1/scheduler.c:42-60 | so whenever a worker is not running its run time, its wait time and their sum are right within one, one and two microseconds per quantum charged, which at the end are all its quanta |
| WorkerTimes.TotalsAreSums | pa4_1/scheduler.c:114-117 | in every run the two totals are the sums of the times of all workers cancelled so far, each once |
| TimeAccounting.WholeMicrosecondsExact | pa4_1/scheduler.c:42-60 | with clocks that show whole microseconds run time and wait time are each exact |

## Left out

- The backing store's file (`lseek`, `read`, errno, short reads): a total function from page number to 256 bytes, so the failure branch after `getPage` is not modelled. Every store holds as many pages as the page table.
- Logging, printing, argument parsing, the loops over input and output files, the data files.
- `getStats`, which never writes its `pageHits` parameter; `writeByte`, dump functions, `addPageEntry`, the unused `findVictim` of the second `PhysicalMemory`, the default branch for an unknown strategy.
- Integer widths of `accessno`, `fifono`, the counters and the `long` times: mathematical integers. The 16-bit physical address and the 8-bit frame number are modelled; mask and shift on 16-bit addresses are written as division and remainder by 256.
- Sizes are assumed sensible: at least one frame and one TLB slot, one to 256 pages, quanta and queue size at least 1. The earlier manager is modelled for at most 256 frames, because a larger count would let its byte-sized frame number wrap before the remainder is taken.
- Contents of the monitor's buffer: `monitor_insert` stores at `buffer_index` before raising it, starting at -1, although its log line names the slot after. Only occupancy is modelled.
- The two small mutexes around the monitor's flags and counts: each section they guard is one atomic step. The monitor's main thread is not a thread of the model: what it reads is stated for every state it could read it in. Its polling sleep is left out.
- Threads are program counters in a state that steps in every order, rather than objects; fairness is not assumed, so "stops" means that no interleaving is infinite. The bounded buffer's main thread may poll without end between the steps of the others; those are bounded whatever it does.
- Signals and signal masks, timers, thread creation, a mutex taken in a signal handler, and freeing of list elements and records: a tick is two atomic steps around `wait_for_queue`, and an admission, an exit or a list operation is one.
- SchedulerObjects.RoundRobin.HandlerUntilWait: the loop in `wait_for_queue` lies between this method and the next; what admissions do meanwhile is in the state machine.
- The race on the two time fields at start-up; run and wait totals start at zero, which `pa4_1/scheduler.c:352` does not ensure.
- The test program's scanning of logs and its wait-time formula; the slot-clearing loop at `pa4_1/smp5_tests.c:93` starts from an index that is not initialised, so empty slots are assumed to be zero.
- RingOracle.ExpectedTurns: only the schedule the check computes, not its comparison with a log.
- The shell in `a2/osh`, the test runner, `t1`, `t2`, `t3` and `GenerateTest`.

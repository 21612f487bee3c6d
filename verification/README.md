# Verified models of classic operating-system algorithms

A Dafny model of eleven small programs that each hold a textbook algorithm, with proofs
of the theorem behind each. Sizes that the programs fix with `#define` are parameters.

| module | program | main result |
|---|---|---|
| `Paging`, `OptimalPaging` | optimal page replacement | Belady's theorem, by counting the resident pages needed by each time |
| `QueuePaging`, `LruStack`, `PagingPrograms` | FIFO and LRU replacement | competitiveness against rivals with as many or fewer frames; the LRU stack property |
| `FifoAnomaly` | FIFO replacement | Belady's anomaly happens exactly between n and 2n - 1 frames |
| `Srpt`, `SjfScheduling` | preemptive shortest job first | least total turnaround over all preemptive schedules |
| `MemoryLayout`, `FirstFit`, `MemoryManagement` | first-fit allocator | live blocks determine the whole layout; runs converge |
| `WaitFor` | wait-for graph | the search reports a cycle exactly if there is one |
| `BankerSafety`, `BankerScan`, `BankerTrap`, `Banker` | banker's algorithm | for which allocations the safety test is exact; runs stay safe |
| `CondQueue` | condition-variable queue | no lost wake-up; completion exactly for matched totals |
| `Philosophers` | dining philosophers | circular wait exactly at tables of even size (and of one) |
| `SemBuffer` | semaphore buffer | the buffer is a stack in every interleaving; completion exactly for matched totals |
| `RoundRobin` | round robin | exact finish times and order of leaving |
| `ResourceOrdering` | ordered requests | which rules for requests exclude cycles of waiting processes |
| `AddressTranslation` | TLB and page table | a translation never depends on the TLB |

`Sums` holds the sums shared by the scheduling and thread-counting proofs, `Tasks` what the
threads of both buffers have to do, `Common` the definitions that several modules use.

How the models are built. Programs that update arrays and records in place are methods
and classes over arrays, proved against specification functions; the theorems are lemmas
about those. The block headers of the allocator live in a map from addresses to headers,
so that the pointer arithmetic is explicit. Concurrent programs are step machines: every
lock, test, wait, wake-up, signal, unlock and semaphore operation of a thread is one step,
and the data accesses inside the lock are also given as methods on the real ring and
buffer. A signal wakes at least one waiter if there is one, and spurious wake-ups are
allowed, as POSIX.1-2017 says under `pthread_cond_wait` and `pthread_cond_signal`.

What the callers must respect, because the programs do: at least one frame; at least one
TLB entry; a region no smaller than a block header; only live pointers freed; a quantum
of at least one and positive remaining work; bursts between 1 and `INT_MAX` - 1 and at
most `INT_MAX` references for LRU, because of the sentinels. A block header is 32 bytes,
its size on 64-bit platforms.

Where the programs fall short of what they say:

- demo_deadlock.c announces that resource ordering prevents deadlock. With its forks,
  x - 1 and x + 1, that is true for odd numbers of philosophers from three on and false
  for all others.
- ResourceOrderingSystem.c trusts the caller to pass the resource it acquired last and
  keeps no record of it. Deadlock is excluded exactly if no process ever asks for a resource
  that is not above its last one; a single exception makes it possible.
- FIFO replacement can fault more often with more frames, exactly between n and 2n - 1 frames.
- Translation_mechanism.c returns -1 for an error, which is also a possible address; the
  exact condition is proved.
- Banker_algorithm.c clears the allocation matrix twice and never the maximum matrix
  (lines 31-32); the model's empty system has both at zero.
- Banker_algorithm.c accepts negative numbers, and neither comparison of a request stops one
  for less than nothing. A system in which a process holds less than nothing can be safe and
  yet be refused, because the processes are scanned in index order; the exact condition on the
  allocation is proved. It holds as long as nobody starts with or asks for less than nothing.

## Model

| member | source | states |
|---|---|---|
| OptimalPaging.FindFarthest | d20_Page_Replacement_Algorithms/page_replacement_algo.c:124-143 | returns the first frame whose page has the latest next use, a page never used again counting as latest |
| OptimalPaging.BeladyOptimal | d20_Page_Replacement_Algorithms/page_replacement_algo.c:154-177 | a run that evicts the page used farthest in the future loads no more pages than any run of the same string in as many frames, prefetching and early eviction included |
| OptimalPaging.DominanceStep | d20_Page_Replacement_Algorithms/page_replacement_algo.c:164-176 | whatever both sides do on a request, the rival's lead in pages needed by any given time stays within what it has paid more |
| OptimalPaging.OptimalRequest | d20_Page_Replacement_Algorithms/page_replacement_algo.c:155-176 | one iteration finds the page exactly if it is resident and otherwise fills a free frame or replaces a farthest page |
| OptimalPaging.OptimalPageReplacement | d20_Page_Replacement_Algorithms/page_replacement_algo.c:146-179 | the fault count is attained by some demand-paging run and is a lower bound on the page loads of every run |
| Paging.DemandLoadsAreFaults | d20_Page_Replacement_Algorithms/page_replacement_algo.c:42-61 | a run that loads only requested pages pays one load per fault, so bounds on loads are bounds on fault counts |
| QueuePaging.QueueRunIsDemand | d20_Page_Replacement_Algorithms/page_replacement_algo.c:46-61 | FIFO and LRU, seen as sets of resident pages, are demand-paging runs with exactly the counted faults |
| QueuePaging.QueueIsCompetitive | d20_Page_Replacement_Algorithms/page_replacement_algo.c:42-121 | for every h <= k, FIFO and LRU with k frames fault at most k / (k - h + 1) times as often as any run with h frames loads pages; with h = k that is k times |
| QueuePaging.PhasesAlongRun | d20_Page_Replacement_Algorithms/page_replacement_algo.c:42-121 | at every point of the string there is a number of completed phases such that the policy has faulted at most k times in each, and since then only on pages at the tail of its queue, while a rival with h frames has paid h + (k - h + 1) per completed phase and for the pages of the current one it did not hold |
| LruStack.LruHoldsMostRecent | d20_Page_Replacement_Algorithms/page_replacement_algo.c:78-117 | after every prefix LRU holds exactly the up to k pages whose last use is latest |
| LruStack.LruStackProperty | d20_Page_Replacement_Algorithms/page_replacement_algo.c:78-117 | the pages held with fewer frames are among those held with more, and more frames never fault more often |
| LruStack.FifoHoldsLatestLoads | d20_Page_Replacement_Algorithms/page_replacement_algo.c:46-60 | after every prefix FIFO holds exactly the up to k pages loaded last, in load order |
| FifoAnomaly.FifoAnomalyIff | d20_Page_Replacement_Algorithms/page_replacement_algo.c:42-61 | some string makes FIFO fault more with `large` frames than with `small` <= `large` exactly if small < large < 2 * small - 1 |
| FifoAnomaly.FifoMonotone | d20_Page_Replacement_Algorithms/page_replacement_algo.c:42-61 | with 2 * small - 1 frames or more FIFO never faults more often than with small, on any string |
| FifoAnomaly.RequestStaysCovered | d20_Page_Replacement_Algorithms/page_replacement_algo.c:46-60 | on one request the larger set of frames faults alone only on a page that it held when the smaller one loaded it, which pays for that fault once |
| FifoAnomaly.AnomalyBetween | d20_Page_Replacement_Algorithms/page_replacement_algo.c:42-61 | for every pair of capacities in between, a string that costs 2 * large + 1 faults with fewer frames and one more with more |
| PagingPrograms.FifoQueue.constructor | d20_Page_Replacement_Algorithms/page_replacement_algo.c:20-28 | a new queue holds nothing and has the given capacity |
| PagingPrograms.FifoQueue.IsPagePresent | d20_Page_Replacement_Algorithms/page_replacement_algo.c:31-39 | true exactly if the page is among the queued pages |
| PagingPrograms.FifoQueue.Load | d20_Page_Replacement_Algorithms/page_replacement_algo.c:52-58 | a free frame is filled, else the oldest page is dropped and the new one appended; the head index wraps |
| PagingPrograms.FifoPageReplacement | d20_Page_Replacement_Algorithms/page_replacement_algo.c:42-65 | counts exactly the faults of the FIFO policy, at most k / (k - h + 1) times the loads of any run with h <= k frames |
| PagingPrograms.LeastRecentlyUsed | d20_Page_Replacement_Algorithms/page_replacement_algo.c:100-109 | the first index of a least time stamp, given that all stamps are below the sentinel |
| PagingPrograms.VictimIsHead | d20_Page_Replacement_Algorithms/page_replacement_algo.c:100-112 | the frame with the least time stamp holds the least recently used page |
| PagingPrograms.LruRequest | d20_Page_Replacement_Algorithms/page_replacement_algo.c:78-113 | one iteration refreshes the stamp on a hit, fills a free frame, or replaces the least recently used page |
| PagingPrograms.LruPageReplacement | d20_Page_Replacement_Algorithms/page_replacement_algo.c:68-121 | counts exactly the faults of the LRU policy, at most k / (k - h + 1) times the loads of any run with h <= k frames |
| PagingPrograms.OptimalBoundsQueues | d20_Page_Replacement_Algorithms/page_replacement_algo.c:184-199 | on one string the optimal count is at most the FIFO and LRU counts, which are at most k times the optimal one |
| Srpt.RestInsert | d5_Advanced_Scheduling_Algorithms_in_OS/sjf_scheduling.c:29-37 | the work left after setting k jobs aside depends on a newly arrived job only through its size: it is set aside or it is not |
| Srpt.RestAfterShortest | d5_Advanced_Scheduling_Algorithms_in_OS/sjf_scheduling.c:44-45 | one unit of work on a shortest job lowers the work left after setting any k jobs aside by one, if there is any |
| Srpt.SrptDominates | d5_Advanced_Scheduling_Algorithms_in_OS/sjf_scheduling.c:25-64 | at every time and for every k, the work left after setting k jobs aside is least under the shortest-remaining-time rule |
| Srpt.FewerUnfinished | d5_Advanced_Scheduling_Algorithms_in_OS/sjf_scheduling.c:25-64 | at every time the rule leaves no more jobs unfinished than any rival schedule |
| Srpt.SrptOptimal | d5_Advanced_Scheduling_Algorithms_in_OS/sjf_scheduling.c:25-64 | the rule minimises total turnaround over all preemptive schedules that run no job before it arrives |
| SjfScheduling.ShortestJob | d5_Advanced_Scheduling_Algorithms_in_OS/sjf_scheduling.c:26-37 | picks the first of the shortest arrived unfinished jobs, or -1 exactly if there is none |
| SjfScheduling.FollowsRuleMeans | d5_Advanced_Scheduling_Algorithms_in_OS/sjf_scheduling.c:25-44 | each slot goes to the first of the arrived incomplete jobs with least work left, and is idle exactly if there is none |
| SjfScheduling.ServedIs | d5_Advanced_Scheduling_Algorithms_in_OS/sjf_scheduling.c:44-50 | a job is served as often as it occurs in the schedule and finishes right after its last slot |
| SjfScheduling.RunJob | d5_Advanced_Scheduling_Algorithms_in_OS/sjf_scheduling.c:44-61 | one tick takes one unit off the job and, if that completes it, writes its times and adds them to the totals |
| SjfScheduling.IdleIsBounded | d5_Advanced_Scheduling_Algorithms_in_OS/sjf_scheduling.c:39-42 | the processor idles only before the last arrival, so the loop ends |
| SjfScheduling.ScheduleSjf | d5_Advanced_Scheduling_Algorithms_in_OS/sjf_scheduling.c:14-64 | terminates; the schedule follows the rule with ties by position; each record holds finish less arrival and that less burst, with id, arrival and burst as before; the totals are the sums of the records and the turnaround is the least possible |
| MemoryLayout.LivePayloadsDisjoint | d15_Memory_Hierarchy/First_Fit_alloc.c:68-126 | live payloads lie inside the region, are disjoint from every other block, and meet no header of any block, free ones and their own included |
| MemoryLayout.LiveChunksDetermineLayout | d15_Memory_Hierarchy/First_Fit_alloc.c:101-126 | because free neighbours are always merged, the live blocks alone determine the whole block list |
| MemoryLayout.NothingLiveIsInitial | d15_Memory_Hierarchy/First_Fit_alloc.c:50-64 | with nothing live there is again the single initial free block |
| FirstFit.AllocAddsOneLive | d15_Memory_Hierarchy/First_Fit_alloc.c:72-92 | an allocation adds one live block at a new address and leaves the others as they are |
| FirstFit.FreeKeepsCoalesced | d15_Memory_Hierarchy/First_Fit_alloc.c:109-125 | after a free no two neighbouring blocks are both free |
| FirstFit.FreeRemovesOneLive | d15_Memory_Hierarchy/First_Fit_alloc.c:102-126 | a free removes exactly the freed block from the live ones; none is moved or resized |
| FirstFit.StepKeepsLayout | d15_Memory_Hierarchy/First_Fit_alloc.c:68-126 | each operation keeps the tiling and the merged free space; an allocated block is larger than asked for by less than a header and a minimal block |
| FirstFit.RunKeepsLayout | d15_Memory_Hierarchy/First_Fit_alloc.c:50-126 | after any run of allocations and frees the blocks tile the region exactly and no two neighbours are free |
| FirstFit.RunsConverge | d15_Memory_Hierarchy/First_Fit_alloc.c:50-126 | runs that leave the same blocks live leave the same list whatever their order; everything freed means the initial state |
| FirstFit.FreeUndoesAlloc | d15_Memory_Hierarchy/First_Fit_alloc.c:68-126 | freeing what was just allocated restores the block list exactly |
| MemoryManagement.LinkedMeans | d15_Memory_Hierarchy/First_Fit_alloc.c:17-22 | the header of each block holds its size and flag, and next and prev are the blocks after and before it in address order |
| MemoryManagement.LinkedAfterSplit | d15_Memory_Hierarchy/First_Fit_alloc.c:75-86 | the header writes of a split produce the doubly linked list of the split layout |
| MemoryManagement.LinkedAfterMerge | d15_Memory_Hierarchy/First_Fit_alloc.c:111-115 | the header writes of a merge produce the doubly linked list of the merged layout |
| MemoryManagement.MemoryManager.constructor | d15_Memory_Hierarchy/First_Fit_alloc.c:50-64 | one free block covers the region |
| MemoryManagement.MemoryManager.MemoryAlloc | d15_Memory_Hierarchy/First_Fit_alloc.c:68-98 | Null exactly if every block is allocated or smaller than asked for; otherwise the payload, 32 bytes on, of the lowest free block that is large enough, split exactly if 48 bytes or more remain, now live and accounted for |
| MemoryManagement.MemoryManager.MemoryFree | d15_Memory_Hierarchy/First_Fit_alloc.c:102-126 | removes exactly the one live block, merges both ways, ignores Null; links stay right and used_size drops by the block and its header |
| WaitFor.RankedIsAcyclic | d14_Deadlock_Detection_Algorithms_and_Banker’s_Algorithm/Wait-for_graph.c:46-58 | a graph whose edges all descend in some order has no cycle |
| WaitFor.AllFinishedIsAcyclic | d14_Deadlock_Detection_Algorithms_and_Banker’s_Algorithm/Wait-for_graph.c:40-42 | if every vertex was finished after all it waits for, there is no cycle |
| WaitFor.BackEdgeIsCycle | d14_Deadlock_Detection_Algorithms_and_Banker’s_Algorithm/Wait-for_graph.c:34-36 | an edge from the top of the recursion stack back into it closes a cycle |
| WaitFor.WaitForGraph.DetectCycleDfs | d14_Deadlock_Detection_Algorithms_and_Banker’s_Algorithm/Wait-for_graph.c:24-43 | returns true only if there is a cycle; otherwise finishes the vertex after everything it waits for and restores the stack; recursion ends because unvisited vertices run out |
| WaitFor.WaitForGraph.DetectDeadlock | d14_Deadlock_Detection_Algorithms_and_Banker’s_Algorithm/Wait-for_graph.c:47-58 | returns true exactly if the graph has a directed cycle, self-loops included |
| BankerSafety.WorkMonotone | d14_Deadlock_Detection_Algorithms_and_Banker’s_Algorithm/Banker_algorithm.c:88-91 | more finished processes mean more work on hand, as long as the additional ones hold nothing negative |
| BankerSafety.WorkIsSum | d14_Deadlock_Detection_Algorithms_and_Banker’s_Algorithm/Banker_algorithm.c:69-71 | the work on hand is what is available and the sum of what the finished processes held |
| BankerSafety.SafeSequenceMeans | d14_Deadlock_Detection_Algorithms_and_Banker’s_Algorithm/Banker_algorithm.c:66-103 | a safe sequence names each process once, and each needs no more than is available plus what its predecessors hold |
| BankerSafety.StuckIsUnsafe | d14_Deadlock_Detection_Algorithms_and_Banker’s_Algorithm/Banker_algorithm.c:99-102 | with non-negative allocations, when the greedy scan is stuck, no order at all lets every process finish |
| BankerScan.AcceptedIsSafe | d14_Deadlock_Detection_Algorithms_and_Banker’s_Algorithm/Banker_algorithm.c:66-112 | the order found by an accepting scan is a safe sequence, whatever the matrices hold |
| BankerScan.OrderFreeIsExact | d14_Deadlock_Detection_Algorithms_and_Banker’s_Algorithm/Banker_algorithm.c:81-103 | the scan finds a safe order whenever there is one, if nothing negative is allocated, or only to the last process while those between the first and the last hold nothing |
| BankerTrap.ExactIffOrderFree | d14_Deadlock_Detection_Algorithms_and_Banker’s_Algorithm/Banker_algorithm.c:81-103 | that condition on the allocation is exact: the test is right for every need and every available exactly if it holds |
| BankerTrap.EarlySpoiler | d14_Deadlock_Detection_Algorithms_and_Banker’s_Algorithm/Banker_algorithm.c:83-97 | if any process but the last holds something negative, there is a safe state with this allocation that the test refuses |
| BankerTrap.LateSpoiler | d14_Deadlock_Detection_Algorithms_and_Banker’s_Algorithm/Banker_algorithm.c:83-97 | so there is if the last one does and somebody between the first and the last holds something |
| BankerScan.GrantsSafely | d14_Deadlock_Detection_Algorithms_and_Banker’s_Algorithm/Banker_algorithm.c:116-147 | what the program grants is safe to grant; under the same condition on the allocation after the request, everything that is safe to grant is granted |
| BankerScan.RunStaysSafe | d14_Deadlock_Detection_Algorithms_and_Banker’s_Algorithm/Banker_algorithm.c:116-151 | every run of requests, negative ones included, from a safe state stays safe, keeps available plus allocated per resource, and allocation + need = max |
| BankerScan.RunStaysWithinBounds | d14_Deadlock_Detection_Algorithms_and_Banker’s_Algorithm/Banker_algorithm.c:116-151 | if no request is negative, nobody ever holds or needs less than nothing and what is available never drops below zero |
| BankerScan.RunGrantsAllSafe | d14_Deadlock_Detection_Algorithms_and_Banker’s_Algorithm/Banker_algorithm.c:116-151 | and in such a run exactly the requests are granted that fit and leave a safe state |
| BankerSafety.SafeHeadIsGrantable | d14_Deadlock_Detection_Algorithms_and_Banker’s_Algorithm/Banker_algorithm.c:116-140 | the first process of a safe sequence can always be granted all it still needs, and the sequence stays safe |
| Banker.BankerSystem.CalNeed | d14_Deadlock_Detection_Algorithms_and_Banker’s_Algorithm/Banker_algorithm.c:44-50 | need becomes max minus allocation and nothing else changes |
| Banker.BankerSystem.CanAllocateResources | d14_Deadlock_Detection_Algorithms_and_Banker’s_Algorithm/Banker_algorithm.c:55-62 | true exactly if no entry of the need exceeds the work on hand |
| Banker.BankerSystem.ScanOnce | d14_Deadlock_Detection_Algorithms_and_Banker’s_Algorithm/Banker_algorithm.c:83-97 | one pass lets the processes finish in index order that can when their turn comes; it finds some exactly if the count rises |
| Banker.BankerSystem.IsSafe | d14_Deadlock_Detection_Algorithms_and_Banker’s_Algorithm/Banker_algorithm.c:66-112 | true exactly if the passes finish everybody, with their order, a safe sequence, in safe_sequence; true exactly if some safe order exists when the scan order does not matter for the allocation |
| Banker.BankerSystem.RequestResources | d14_Deadlock_Detection_Algorithms_and_Banker’s_Algorithm/Banker_algorithm.c:116-151 | grants exactly the requests within need and available after which the safety test accepts, moving exactly the request from available and need to the allocation; a denial leaves every matrix as it was |
| Banker.RollbackRestores | d14_Deadlock_Detection_Algorithms_and_Banker’s_Algorithm/Banker_algorithm.c:142-147 | giving back what was tentatively taken restores the state exactly |
| CondQueue.PushRefines | d8_Thread_Creation_and_Management/combined.c:45-46 | a push on a ring that is not full appends to the queued values |
| CondQueue.PopRefines | d8_Thread_Creation_and_Management/combined.c:59-60 | a pop from a ring that is not empty removes the oldest queued value |
| CondQueue.FullAndEmpty | d8_Thread_Creation_and_Management/combined.c:41-57 | the two loop conditions mean exactly QUEUE_SIZE - 1 queued values and none |
| CondQueue.StepKeepsWakeups | d8_Thread_Creation_and_Management/combined.c:41-62 | while a consumer sleeps, the queue holds no more values than consumers are woken or still due a signal, and dually for producers |
| CondQueue.RingIsBoundedFifo | d8_Thread_Creation_and_Management/combined.c:38-66 | in every interleaving values popped, then values queued, equal the values pushed, in lock order; one thread at a time is inside the lock |
| CondQueue.ItemsEnterInOrder | d8_Thread_Creation_and_Management/combined.c:68-76 | in every interleaving each producer's items enter the ring in its own order and exactly once: those it pushed, then those it has left, are those it started with |
| CondQueue.NobodyAsleepForever | d8_Thread_Creation_and_Management/combined.c:41-57 | with matched totals no state has unfinished threads that are all asleep |
| CondQueue.NotStuck | d8_Thread_Creation_and_Management/combined.c:38-87 | with matched totals every unfinished state has a step that is not a spurious wake-up |
| CondQueue.RunsAreBounded | d8_Thread_Creation_and_Management/combined.c:38-87 | the length of every run is bounded by its start and its spurious wake-ups |
| CondQueue.CompletesIffBalanced | d8_Thread_Creation_and_Management/combined.c:89-106 | all threads can finish exactly if pushes minus pops lies between 0 and QUEUE_SIZE - 1 |
| CondQueue.BalancedRunsGoOn | d8_Thread_Creation_and_Management/combined.c:89-106 | and then every run that has not completed can go on |
| CondQueue.ThreadSafeQueue.Put | d8_Thread_Creation_and_Management/combined.c:45-46 | stores the value at rear and advances rear around the ring |
| CondQueue.ThreadSafeQueue.Take | d8_Thread_Creation_and_Management/combined.c:59-60 | returns the value at front and advances front around the ring |
| CondQueue.ThreadSafeQueue.PutFor | d8_Thread_Creation_and_Management/combined.c:45-46 | an access of a producer in the step machine is Put on the real ring |
| CondQueue.ThreadSafeQueue.TakeFor | d8_Thread_Creation_and_Management/combined.c:59-60 | an access of a consumer in the step machine is Take on the real ring, with the value it returns |
| Philosophers.Left | d13_Deadlock_Concepts_and_Prevention/demo_deadlock.c:7 | the fork before x, around the table |
| Philosophers.Right | d13_Deadlock_Concepts_and_Prevention/demo_deadlock.c:8 | the fork after x, around the table |
| Philosophers.Table.constructor | d13_Deadlock_Concepts_and_Prevention/demo_deadlock.c:50-54 | all forks are free and everybody thinks |
| Philosophers.Table.Lock | d13_Deadlock_Concepts_and_Prevention/demo_deadlock.c:27-31 | locking the next fork is exactly one step of the state machine, and keeps every fork with its one holder |
| Philosophers.Table.Unlock | d13_Deadlock_Concepts_and_Prevention/demo_deadlock.c:38-39 | unlocking the next fork is exactly one step of the state machine, first fork first, and keeps every fork with its one holder |
| Philosophers.StepKeepsForks | d13_Deadlock_Concepts_and_Prevention/demo_deadlock.c:27-39 | every lock and unlock keeps each fork owned by exactly the philosopher who holds it |
| Philosophers.NeighboursNeverEatTogether | d13_Deadlock_Concepts_and_Prevention/demo_deadlock.c:27-39 | in no run do two philosophers who share a fork eat together |
| Philosophers.FirstRanksLower | d13_Deadlock_Concepts_and_Prevention/demo_deadlock.c:18-19 | at an odd table of three or more the forks can be ranked so that everybody takes the lower one first |
| Philosophers.OddTablesNeverWaitInACircle | d13_Deadlock_Concepts_and_Prevention/demo_deadlock.c:17-31 | there no state is a circular wait |
| Philosophers.CircularWaitIffEven | d13_Deadlock_Concepts_and_Prevention/demo_deadlock.c:13-40 | a circular wait is reachable exactly at tables of even size and at a table of one |
| Philosophers.StandstillIffEven | d13_Deadlock_Concepts_and_Prevention/demo_deadlock.c:13-40 | at exactly the same tables all philosophers can come to a standstill |
| SemBuffer.StepKeepsSlots | d12_Mutex_and_Semaphores/consumer_producer.c:29-58 | every step keeps the semaphores equal to free and filled slots minus those claimed and not yet posted |
| SemBuffer.AccessInBounds | d12_Mutex_and_Semaphores/consumer_producer.c:36-51 | every read and write of the buffer is in bounds |
| SemBuffer.SlotsAndItems | d12_Mutex_and_Semaphores/consumer_producer.c:22-58 | in every interleaving free, filled and in-flight slots add up to the capacity, and items produced are items consumed plus the buffer |
| SemBuffer.ProducedFromTasks | d12_Mutex_and_Semaphores/consumer_producer.c:29-41 | in every interleaving each value has been produced as often as the producers started with it, less what they still have |
| SemBuffer.AccessIsStackOperation | d12_Mutex_and_Semaphores/consumer_producer.c:36-51 | a producer puts its next item after the filled slots; a consumer takes the last filled slot and leaves the others as they are |
| SemBuffer.BufferIsStack | d12_Mutex_and_Semaphores/consumer_producer.c:29-58 | in every interleaving each consumed item is the latest produced one still in the buffer |
| SemBuffer.NotStuck | d12_Mutex_and_Semaphores/consumer_producer.c:29-74 | with matched totals every unfinished state has a step |
| SemBuffer.CompletesIffBalanced | d12_Mutex_and_Semaphores/consumer_producer.c:61-99 | all threads can finish exactly if production exceeds consumption by 0 to BUFFER_SIZE |
| SemBuffer.BalancedRunsComplete | d12_Mutex_and_Semaphores/consumer_producer.c:61-99 | and then every run completes exactly when it has taken a number of steps fixed by the start, and can go on exactly before that |
| SemBuffer.SharedBuffer.Add | d12_Mutex_and_Semaphores/consumer_producer.c:36 | appends the item |
| SemBuffer.SharedBuffer.Remove | d12_Mutex_and_Semaphores/consumer_producer.c:51 | removes and returns the last item |
| SemBuffer.SharedBuffer.AddFor | d12_Mutex_and_Semaphores/consumer_producer.c:36 | an access of a producer in the step machine is Add on the real buffer |
| SemBuffer.SharedBuffer.RemoveFor | d12_Mutex_and_Semaphores/consumer_producer.c:51 | an access of a consumer in the step machine is Remove on the real buffer, with the item it returns |
| RoundRobin.FinishTimeIs | d5_Advanced_Scheduling_Algorithms_in_OS/round_robin_scheduling.c:20-42 | the finish time in closed form: the sum of min(work, r * quantum) up to the process and of min(work, (r - 1) * quantum) behind it, r being the turns it needs |
| RoundRobin.FinishesNow | d5_Advanced_Scheduling_Algorithms_in_OS/round_robin_scheduling.c:32-35 | a process that runs out of work in round r leaves when everyone up to it has had r turns, the others r - 1, each as far as needed |
| RoundRobin.Turn | d5_Advanced_Scheduling_Algorithms_in_OS/round_robin_scheduling.c:22-40 | one turn runs a process for a quantum or its remaining work; if that finishes it, turnaround is the clock less arrival, waiting is turnaround less burst, and both are added to the totals; nothing else changes |
| RoundRobin.RoundRobinScheduling | d5_Advanced_Scheduling_Algorithms_in_OS/round_robin_scheduling.c:15-42 | every record ends with turnaround = finish time less arrival, waiting = turnaround less burst, nothing remaining and the rest as before; the clock ends at the sum of all work and the totals are the sums of the records |
| RoundRobin.FinishesInOrder | d5_Advanced_Scheduling_Algorithms_in_OS/round_robin_scheduling.c:20-42 | processes leave in order of the number of turns they need, ties in order of position |
| ResourceOrdering.ResourceOrderingSystem.constructor | d14_Deadlock_Detection_Algorithms_and_Banker’s_Algorithm/ResourceOrderingSystem.c:21-30 | resource i has priority i and is available |
| ResourceOrdering.ResourceOrderingSystem.IsValidResourceRequest | d14_Deadlock_Detection_Algorithms_and_Banker’s_Algorithm/ResourceOrderingSystem.c:34-38 | true exactly for a first request or one of higher priority, which in an initialised system means a higher number |
| ResourceOrdering.ResourceOrderingSystem.RequestResource | d14_Deadlock_Detection_Algorithms_and_Banker’s_Algorithm/ResourceOrderingSystem.c:42-56 | grants exactly a first request or one of higher priority, for an available resource, and changes nothing but that availability |
| ResourceOrdering.EveryRequestIsAnswered | d14_Deadlock_Detection_Algorithms_and_Banker’s_Algorithm/ResourceOrderingSystem.c:42-56 | after any run of requests, disciplined or not, a first or ascending request is granted exactly if nobody holds the resource, and any other is turned away |
| ResourceOrdering.RulePreventsDeadlockIff | d14_Deadlock_Detection_Algorithms_and_Banker’s_Algorithm/ResourceOrderingSystem.c:34-56 | among the rules for what a process may ask for that allow every first and every ascending request, exactly those that allow no other exclude cycles of waiting processes in every run; that is the exact condition on the caller, whatever current resource it passes |
| ResourceOrdering.AskingAgainDeadlocks | d14_Deadlock_Detection_Algorithms_and_Banker’s_Algorithm/ResourceOrderingSystem.c:34-56 | any single exception to ascending order lets a process wait for itself |
| ResourceOrdering.DisciplinePreventsDeadlock | d14_Deadlock_Detection_Algorithms_and_Banker’s_Algorithm/ResourceOrderingSystem.c:42-77 | if every process passes its last acquired resource, waiting processes never form a cycle |
| ResourceOrdering.DetectorStaysSilent | d14_Deadlock_Detection_Algorithms_and_Banker’s_Algorithm/Wait-for_graph.c:47-58 | so the deadlock detector reports none on such a state |
| ResourceOrdering.DisciplineIsNeeded | d14_Deadlock_Detection_Algorithms_and_Banker’s_Algorithm/ResourceOrderingSystem.c:34-38 | for any two processes and any two resources, one request that passes -1 after a disciplined run closes a cycle |
| AddressTranslation.StepKeepsCoherent | d16_Logical_vs_Physical_Address_Space/Translation_mechanism.c:54-105 | a hit or a miss keeps every valid TLB entry in agreement with the page table and no page cached twice |
| AddressTranslation.RunStaysCoherent | d16_Logical_vs_Physical_Address_Space/Translation_mechanism.c:75-108 | in any run over a fixed page table a hit gives what direct translation gives |
| AddressTranslation.AddressTranslator.constructor | d16_Logical_vs_Physical_Address_Space/Translation_mechanism.c:36-50 | all TLB and page table entries start invalid |
| AddressTranslation.AddressTranslator.UpdateTlb | d16_Logical_vs_Physical_Address_Space/Translation_mechanism.c:54-71 | replaces the first entry with the least access time and ticks the clock |
| AddressTranslation.AddressTranslator.FrameOf | d16_Logical_vs_Physical_Address_Space/Translation_mechanism.c:79-105 | the frame of a page, found in the TLB or loaded, is the one in the page table whatever was translated before; its entry is stamped with the time and the clock ticks; an unmapped page changes nothing |
| AddressTranslation.AddressTranslator.TranslateAddress | d16_Logical_vs_Physical_Address_Space/Translation_mechanism.c:75-108 | the frame of a valid page of the table shifted and or'ed with the offset, or -1 with nothing changed if the page is beyond the table or not valid |
| AddressTranslation.DirectIs | d16_Logical_vs_Physical_Address_Space/Translation_mechanism.c:76-107 | translation without a TLB in full: page address / 4096, offset address % 4096, and the error word |
| AddressTranslation.SplitIsExact | d16_Logical_vs_Physical_Address_Space/Translation_mechanism.c:76-77 | shift and mask split an address into page and offset without loss |
| AddressTranslation.PhysicalIsArithmeticIff | d16_Logical_vs_Physical_Address_Space/Translation_mechanism.c:107 | shift and or equal frame * 4096 + offset exactly if the frame is below 2^20 |
| AddressTranslation.PhysicalIsInjective | d16_Logical_vs_Physical_Address_Space/Translation_mechanism.c:107 | below 2^20 frame and offset can be read back from the physical address |
| AddressTranslation.TranslationIsInjective | d16_Logical_vs_Physical_Address_Space/Translation_mechanism.c:75-107 | with distinct frames below 2^20, different mapped addresses have different translations |
| AddressTranslation.ErrorIsAmbiguousIff | d16_Logical_vs_Physical_Address_Space/Translation_mechanism.c:95-107 | the error value is also the translation of one address, the last byte of a page whose frame ends in twenty ones |

## Left out

- Output, averages in floating point, `sleep`, `malloc` failure, thread creation and joining.
- Overflow of `int` counters, clocks and sums; only the sentinels, the 32-bit shift and the wrapping TLB clock are modelled.
- The limits MAX_PROCESSES and MAX_RESOURCES: arrays have the size that is needed.
- Alignment of block headers, and clients that write outside their payload.
- Double free and freeing of foreign pointers: the allocator requires a live pointer.
- Fairness of the thread scheduler: that every run can go on, and how long it can get, is proved, not that a particular thread gets its turn.
- The values returned to individual consumers: only the order in which they leave the ring.
- Which entry the TLB evicts over time: empty entries and the first one share access time 0, so the policy is not exactly LRU; transparency and uniqueness do not depend on it.
- Changes of the page table while entries are cached: the program never invalidates an entry.
- The copies of these algorithms elsewhere: paging in d19_Paging_Mechanism, the safety test in Safety_algorithm.c.
- The other programs of the repository: serial communication, file systems, process and pipe demonstrations, bump and stack allocators, fixed tables, first-come-first-served; they would only add input and output or easy members.

# Verified models of the hand-written algorithms and protocols in guess

The repository is a collection of Java studies. A few of its files contain algorithms and concurrent
protocols written out by hand: a family of sorts, two bounded blocking queues, a pool of queues with retrying
consumers, a parallel search, a fork/join sum, a pipeline, self-removing observers and a string encoder in a
page script. This project models those files in Dafny and proves what they promise; where the code breaks a
promise, it proves for which inputs and shows how.

| file | models | in one sentence |
|---|---|---|
| `OddEven.dfy` | `SortDemo` sequential odd-even sorts | n phases sort n elements, by a counting argument; both loops, their exit tests and their phase bounds |
| `ParallelOddEven.dfy` | `SortDemo.pOddEvenSort` | every interleaving of single reads and writes returns what the sequential sort returns |
| `Shell.dfy` | `SortDemo` insertion and Shell sort | Knuth's theorem on gaps, the gap arithmetic, agreement of all four sorts |
| `ParallelShell.dfy` | `SortDemo.pShellSort` | every returning run sorts, whole tasks agree with shellSort, which lengths throw |
| `ShellElements.dfy` | `SortDemo.pShellSort` | for exactly which lengths every interleaving keeps the elements |
| `RingBuffer.dfy` | the circular array of both queues | a queue object that refines a sequence |
| `LockQueue.dfy`, `SycQueue.dfy` | the two monitors | FIFO, every call answered once, no lost wake-up, bounded work, exactly when threads are stuck |
| `SyncPool.dfy` | the queue pool and one consumer round | round-robin arithmetic with 32-bit overflow, one round of pushes, re-push |
| `MessageSystem.dfy` | pool, failure queue and consumers as threads | FIFO queues, conservation of messages, bounded work |
| `MessageRest.dfy` | the same system | the retry bound is attained; exactly which configurations and pushed messages can end in a deadlock of the failure queue |
| `Search.dfy` | `SearchDemo` | correct under every interleaving if and only if index 0 does not hold the value |
| `CountTask.dfy` | `ForkJoinPoolDemo` | the split covers every number once; exactly which ranges end; the sum |
| `Observers.dfy` | `WeatherData`, `OtherObserver` | one notification round halves the self-removing observers and keeps the others in order |
| `Pipeline.dfy` | `Plus`, `Multiply`, `Div` | outputs leave in submission order with the right values, after nine steps for each message |
| `Utf8Encoder.dfy` | the `GB2312UTF8` functions of the page | the three-byte form of RFC 3629, and exactly which characters survive decoding |
| `Sequences.dfy`, `Totals.dfy`, `Arithmetic.dfy`, `Wrappers.dfy` | shared | sorted sequences; weighted sums over threads, queues and tasks; products; optional values |

Conventions. Code that updates arrays or fields is a method or class proved against a function, and lemmas
state what that function achieves. A concurrent protocol is a step system: a schedule is a sequence of
actions, `Run(s, acts, t)` says that it leads from `s` to `t`, and a lemma about all schedules is a lemma
about all interleavings. Steps are sequentially consistent; what a thread does while it holds a lock is one
step. Threads that are blocked have no enabled action. A push of `MessageSystem` may go to any pool queue with
room, which includes every choice of `getQueue`; a push that blocks is not yet accepted. Every queue has a
consumer, because the thread pool of a queue rejects a consumer count below 1. Fields named as history
(`phases`, `accepted`, `delivered`, `called`, `inputs`) are read by no step.

Results where the code and its intent differ:

- `pOddEvenSort` throws for the empty array (`ThrowsOnlyWhenEmpty`), and does nothing unless the static flag is 1.
- `pShellSort` throws exactly for the lengths 3, 12, 39, ... (`BreaksExactly`), and from length 9 on, unless
  it throws, some race of tasks in one chain loses an element although the result is sorted (`KeepsExactly`).
- The index of `getQueue` leaves the pool when the addition of the queue count overflows (`IndexInPool`).
- The failure queue and its consumers can block each other for ever, exactly if enough of the pushed messages
  can be retried (`DeadlockExactly`).
- `pSearch` reports a value at index 0 as absent in some runs (`MissesIndexZero`), and a second search
  returns the answer of the first (`SecondSearch`).
- The fork/join task recurses without end on every long range whose step is above 10000, and on most with step
  10000 (`EndsExactly`); a long range whose start + end overflows gives 0 (`OverflowInverts`).
- Characters from U+0100 to U+07FF and surrogates become byte sequences that RFC 3629 forbids, and after an
  escaped ASCII character the text from the fourth following character on is repeated (`RoundTripExactly`).

## Model

| member | source | states |
|---|---|---|
| OddEven.PhaseAbove | src/main/java/com/ezfun/guess/multithread/case004/pstream/SortDemo.java:59-66 | the effect of one phase on the number of elements above a threshold in each suffix: boundaries inside compared pairs move to the minimum of their neighbours, all others stay |
| OddEven.PhasesAbove | src/main/java/com/ezfun/guess/multithread/case004/pstream/SortDemo.java:57-72 | a lower bound, growing with the phases, on how many large elements have reached each suffix, for either starting parity |
| OddEven.PhasesSort | src/main/java/com/ezfun/guess/multithread/case004/pstream/SortDemo.java:55-73 | n phases sort any n elements, whichever parity comes first |
| OddEven.StopsInTime | src/main/java/com/ezfun/guess/multithread/case004/pstream/SortDemo.java:57-57 | a run that has not met the exit test has made at most n + 2 phases, and meets it at n + 2 |
| OddEven.StoppedSorted | src/main/java/com/ezfun/guess/multithread/case004/pstream/SortDemo.java:55-73 | the exit test, a quiet phase of parity 1, implies sorted and permuted even if the phase before it exchanged elements |
| OddEven.RunPhase | src/main/java/com/ezfun/guess/multithread/case004/pstream/SortDemo.java:58-66 | the in-place loop orders all pairs of one parity at once, and the flag says whether anything changed |
| OddEven.OddEvenSort | src/main/java/com/ezfun/guess/multithread/case004/pstream/SortDemo.java:55-73 | sorts in place, keeps the multiset, stops at the first phase that meets the exit test, within n + 2 phases |
| OddEven.SwapInOrder | src/main/java/com/ezfun/guess/multithread/case004/pstream/SortDemo.java:211-220 | exchanges only positions given in order that hold elements out of order |
| OddEven.BatcherStoppedSorted | src/main/java/com/ezfun/guess/multithread/case004/pstream/SortDemo.java:83-106 | a round without exchanges means sorted and permuted |
| OddEven.BatcherStopsInTime | src/main/java/com/ezfun/guess/multithread/case004/pstream/SortDemo.java:83-109 | the round loop cannot pass (n + 1) / 2 + 1 rounds |
| OddEven.BatcherSort | src/main/java/com/ezfun/guess/multithread/case004/pstream/SortDemo.java:80-110 | sorts in place, keeps the multiset, within (n + 1) / 2 + 1 rounds |
| ParallelOddEven.LatchMatchesTasks | src/main/java/com/ezfun/guess/multithread/case004/pstream/SortDemo.java:117-122 | the latch count equals the number of submitted tasks; it is negative only for the empty array |
| ParallelOddEven.OwnSlotStep | src/main/java/com/ezfun/guess/multithread/case004/pstream/SortDemo.java:42-52 | each read, write, flag set and count-down of a task keeps what is known about its own pair |
| ParallelOddEven.OtherSlotStep | src/main/java/com/ezfun/guess/multithread/case004/pstream/SortDemo.java:42-52 | no step of a task disturbs another pair |
| ParallelOddEven.AwaitedPhase | src/main/java/com/ezfun/guess/multithread/case004/pstream/SortDemo.java:120-123 | when await returns, array and flag are those of the sequential phase and all tasks have finished |
| ParallelOddEven.ParallelAgrees | src/main/java/com/ezfun/guess/multithread/case004/pstream/SortDemo.java:112-131 | every run that returns has the array of oddEvenSort after its own number of phases, sorted and permuted; with another entry flag the array is untouched; the flag is left unset |
| ParallelOddEven.ThrowsOnlyWhenEmpty | src/main/java/com/ezfun/guess/multithread/case004/pstream/SortDemo.java:117-119 | the latch constructor throws only for the empty array, whose runs never return |
| ParallelOddEven.Progress | src/main/java/com/ezfun/guess/multithread/case004/pstream/SortDemo.java:112-131 | no reachable state before the end is a deadlock |
| ParallelOddEven.RunsEnd | src/main/java/com/ezfun/guess/multithread/case004/pstream/SortDemo.java:112-131 | every schedule is finite, with an explicit bound |
| Shell.PassSorts | src/main/java/com/ezfun/guess/multithread/case004/pstream/SortDemo.java:270-280 | a pass with gap h leaves the array h-sorted and permuted |
| Shell.Knuth | src/main/java/com/ezfun/guess/multithread/case004/pstream/SortDemo.java:269-282 | a pass with gap h keeps every gap g sorted that was sorted before |
| Shell.EarlierGapsHold | src/main/java/com/ezfun/guess/multithread/case004/pstream/SortDemo.java:269-283 | before each pass all earlier, larger gaps are sorted at once |
| Shell.GapShape | src/main/java/com/ezfun/guess/multithread/case004/pstream/SortDemo.java:266-268 | twice a gap plus one is a power of three, and (h - 1) / 3 retraces the gaps down to 1 |
| Shell.TopGap | src/main/java/com/ezfun/guess/multithread/case004/pstream/SortDemo.java:265-268 | the first gap is above a third of the length, at most the length plus one, and an int for every int length |
| Shell.ShellSorts | src/main/java/com/ezfun/guess/multithread/case004/pstream/SortDemo.java:263-284 | the passes together sort and permute |
| Shell.SortsAgree | src/main/java/com/ezfun/guess/multithread/case004/pstream/SortDemo.java:55-284 | Shell sort, insertion sort, odd-even sort and the round variant give the same array |
| Shell.InsertInPlace | src/main/java/com/ezfun/guess/multithread/case004/pstream/SortDemo.java:271-279 | the shift loop with its hole inserts exactly as the step-by-step exchange does |
| Shell.InsertSort | src/main/java/com/ezfun/guess/multithread/case004/pstream/SortDemo.java:239-256 | sorts in place and keeps the multiset; it is the pass with gap 1 |
| Shell.ShellSort | src/main/java/com/ezfun/guess/multithread/case004/pstream/SortDemo.java:263-284 | sorts in place, keeps the multiset, ends |
| ParallelShell.WholeIsSteps | src/main/java/com/ezfun/guess/multithread/case004/pstream/SortDemo.java:147-158 | taking a task as one step is what its single steps do when it runs alone |
| ParallelShell.InOrderTakesThree | src/main/java/com/ezfun/guess/multithread/case004/pstream/SortDemo.java:147-158 | a task that finds its element in order, equal elements included, is done after two reads and the count-down |
| ParallelShell.ReturnsSorted | src/main/java/com/ezfun/guess/multithread/case004/pstream/SortDemo.java:162-201 | under any interleaving, coarse, fine or mixed, a run that returns leaves a sorted array |
| ParallelShell.CoarseAgrees | src/main/java/com/ezfun/guess/multithread/case004/pstream/SortDemo.java:162-201 | with tasks taken whole, in any order, the result is that of shellSort, with the same multiset |
| ShellElements.SmallAgrees | src/main/java/com/ezfun/guess/multithread/case004/pstream/SortDemo.java:147-201 | up to length 8 every interleaving of single reads and writes that returns has the array of shellSort and the given elements |
| ShellElements.RaceLosesElement | src/main/java/com/ezfun/guess/multithread/case004/pstream/SortDemo.java:147-201 | for every length from 9 on that does not throw, an input and a run, with a task at 4 taken in single reads and writes, whose result has another multiset |
| ShellElements.KeepsExactly | src/main/java/com/ezfun/guess/multithread/case004/pstream/SortDemo.java:162-201 | all runs that return keep the elements if and only if the length is at most 8 or is one that throws |
| ParallelShell.ThrowsExactly | src/main/java/com/ezfun/guess/multithread/case004/pstream/SortDemo.java:173-175 | the latch constructor throws if and only if the first gap exceeds a length of at least 3 |
| ParallelShell.BreaksExactly | src/main/java/com/ezfun/guess/multithread/case004/pstream/SortDemo.java:167-175 | those lengths are one less than a gap above 1 |
| ParallelShell.Progress | src/main/java/com/ezfun/guess/multithread/case004/pstream/SortDemo.java:147-201 | no task touches a position outside the array, and no reachable state is a deadlock |
| ParallelShell.RunsEnd | src/main/java/com/ezfun/guess/multithread/case004/pstream/SortDemo.java:162-201 | every schedule is finite, with an explicit bound |
| RingBuffer.TailFormula | src/main/java/com/ezfun/guess/queue/BlockingQueueLock.java:64-92 | tail is (head + count) modulo the capacity |
| RingBuffer.PutAppends | src/main/java/com/ezfun/guess/queue/BlockingQueueLock.java:86-92 | put appends to the contents and keeps the slots outside the live window null |
| RingBuffer.TakeRemoves | src/main/java/com/ezfun/guess/queue/BlockingQueueLock.java:64-71 | take removes the oldest element and nulls its slot |
| RingBuffer.BlockingQueue.Create | src/main/java/com/ezfun/guess/queue/BlockingQueueLock.java:44-50 | a capacity below 1 is rejected, any other gives an empty queue |
| RingBuffer.BlockingQueue.PutPass | src/main/java/com/ezfun/guess/queue/BlockingQueueLock.java:79-98 | one pass through put appends, or finds the queue full and changes nothing |
| RingBuffer.BlockingQueue.TakePass | src/main/java/com/ezfun/guess/queue/BlockingQueueLock.java:57-77 | one pass through take returns the oldest element, or finds the queue empty and changes nothing |
| LockQueue.StepPutter | src/main/java/com/ezfun/guess/queue/BlockingQueueLock.java:72-93 | every step keeps: while a producer waits unsignalled, free slots are at most the signalled producers that have not rechecked |
| LockQueue.NoLostWakeUp | src/main/java/com/ezfun/guess/queue/BlockingQueueLock.java:57-98 | in every run: FIFO, at most one thread inside take, an unsignalled waiting taker means empty, and the producer bound |
| LockQueue.CallsAccounted | src/main/java/com/ezfun/guess/queue/BlockingQueueLock.java:57-98 | in every run, for every weighing of elements, those given to put are those stored and those still carried by producers inside put; every take has delivered one element or is still inside |
| LockQueue.ReturnsServed | src/main/java/com/ezfun/guess/queue/BlockingQueueLock.java:64-93 | a thread leaves put only in the step that appends its own element, and leaves take only in the step that delivers the oldest; while inside, a producer keeps its element |
| LockQueue.PassesBounded | src/main/java/com/ezfun/guess/queue/BlockingQueueLock.java:57-98 | in every schedule, monitor entries and lock-held passes number at most three for a take, two for a put and one for a spurious wake-up |
| LockQueue.StuckExactly | src/main/java/com/ezfun/guess/queue/BlockingQueueLock.java:57-98 | a reachable state is stuck if and only if all busy threads are takers of an empty queue, waiting or lined up behind a waiting one, or all are producers waiting at a full one |
| SycQueue.SafeInEveryRun | src/main/java/com/ezfun/guess/queue/BlockingQueueSyc.java:29-57 | in every run: FIFO, waiting takers mean empty, waiting producers mean full, never both kinds |
| SycQueue.CallsAccounted | src/main/java/com/ezfun/guess/queue/BlockingQueueSyc.java:29-57 | the same account of elements and calls for the notifyAll monitor |
| SycQueue.ReturnsServed | src/main/java/com/ezfun/guess/queue/BlockingQueueSyc.java:34-56 | threads leave put and take only with their own element appended or the oldest delivered |
| SycQueue.PassesBounded | src/main/java/com/ezfun/guess/queue/BlockingQueueSyc.java:29-57 | with n threads, in every schedule, at most n + 1 passes for each call and one for a spurious wake-up |
| SycQueue.StuckExactly | src/main/java/com/ezfun/guess/queue/BlockingQueueSyc.java:29-57 | a reachable state is stuck if and only if all busy threads wait for the same impossible operation |
| SyncPool.IndexInPool | src/main/java/com/ezfun/guess/queue/BlockingQueueSyncPool.java:67-69 | the index lies in the pool if and only if the int addition does not overflow or wraps onto a multiple of the queue count |
| SyncPool.OverflowExample | src/main/java/com/ezfun/guess/queue/BlockingQueueSyncPool.java:64-69 | the largest counter value and five queues give index -4 |
| SyncPool.RoundCovers | src/main/java/com/ezfun/guess/queue/BlockingQueueSyncPool.java:67-69 | as many consecutive choices as there are queues, with no full queue and no addition that overflows, take every queue exactly once |
| SyncPool.PushRound | src/main/java/com/ezfun/guess/queue/BlockingQueueSyncPool.java:47-82 | as many pushes as there are queues, none of them full, append one message to each queue, the message whose turn it is |
| SyncPool.ChooseExactly | src/main/java/com/ezfun/guess/queue/BlockingQueueSyncPool.java:68-81 | the choice is the queue at the counter modulo the count, on fullness the cyclically next one, else a full pool |
| SyncPool.PushesAreChoices | src/main/java/com/ezfun/guess/queue/BlockingQueueSyncPool.java:47-82 | the pushes the message system allows are exactly the choices of getQueue over all counter values without overflow |
| SyncPool.Pool.Create | src/main/java/com/ezfun/guess/queue/BlockingQueueSyncPool.java:38-44 | fails exactly if a queue to be created has a size below 1; otherwise a pool of empty, separate queues of the given sizes, with the counter at 1 |
| SyncPool.Pool.GetQueue | src/main/java/com/ezfun/guess/queue/BlockingQueueSyncPool.java:63-82 | sets the counter to 2 if it is 2147483647 and otherwise adds one, and makes that choice, errors included |
| SyncPool.Pool.Push | src/main/java/com/ezfun/guess/queue/BlockingQueueSyncPool.java:47-52 | appends the message to one queue and leaves all others alone, or fails and changes no queue; the counter moves as in getQueue unless the message is null |
| SyncPool.Pool.RePush | src/main/java/com/ezfun/guess/queue/BlockingQueueSyncPool.java:54-61 | appends to the failure queue, or fails if it is full; pool queues are untouched |
| SyncPool.Dto.AddRetryCount | src/main/java/com/ezfun/guess/queue/dto/AbstractSyncDto.java:20-22 | adds one retry |
| SyncPool.ConsumeRound | src/main/java/com/ezfun/guess/queue/QueueConsumer.java:71-104 | the end of one consumer round for each handler outcome: fate, retry count and failure queue; a retryable failure is requeued exactly if the old count is at most 2 and the failure queue has room |
| MessageSystem.StepMovesOne | src/main/java/com/ezfun/guess/queue/QueueConsumer.java:65-110 | every consumer step moves exactly one message between places and leaves all other places alone |
| MessageSystem.QueueIsFifo | src/main/java/com/ezfun/guess/queue/BlockingQueueSyncPool.java:47-61 | in every run and for every queue, the messages put into it, by pushes or by retries, are those handed to its consumers, in the same order, followed by its contents, which stay within its capacity |
| MessageSystem.Conservation | src/main/java/com/ezfun/guess/queue/QueueConsumer.java:65-110 | in every run each accepted message is in exactly one place: a queue, in flight, or finished with one fate |
| MessageSystem.CallsBounded | src/main/java/com/ezfun/guess/queue/QueueConsumer.java:84-92 | handler calls for any selection of messages are at most the sum of 1 + max(0, 3 - initial retry count) |
| MessageRest.RetriesToTheEnd | src/main/java/com/ezfun/guess/queue/QueueConsumer.java:84-92 | the bound is attained: some run hands a single message to handlers exactly 1 + max(0, 3 - initial retry count) times and then finally fails it, with 3 retries counted |
| MessageSystem.WorkBounded | src/main/java/com/ezfun/guess/queue/QueueConsumer.java:65-110 | the length of a run is bounded by the messages pushed |
| MessageRest.DeadlockNeedsRetries | src/main/java/com/ezfun/guess/queue/BlockingQueueSyncPool.java:54-61 | a run that rests with a message unfinished rests with the failure queue full and each of its consumers blocked putting into it, and has accepted that many messages with retries left |
| MessageRest.DeadlockExactly | src/main/java/com/ezfun/guess/queue/QueueConsumer.java:65-110 | a run that accepts given messages can come to rest with one unfinished if and only if there is a pool queue, at least as many of them as the failure queue has consumers can be retried twice, and at least as many as its consumers and places together can be retried once |
| Search.SearchCorrect | src/main/java/com/ezfun/guess/multithread/case004/other/SearchDemo.java:39-89 | for a value not at index 0 every run returns -1 exactly if the value is absent and otherwise an index holding it; tasks agree; at most as many chunks as threads partition the array |
| Search.MissesIndexZero | src/main/java/com/ezfun/guess/multithread/case004/other/SearchDemo.java:83-88 | for every array with the value at index 0 some run returns -1 |
| Search.CorrectExactly | src/main/java/com/ezfun/guess/multithread/case004/other/SearchDemo.java:39-89 | all runs are right if and only if index 0 does not hold the value |
| Search.SecondSearch | src/main/java/com/ezfun/guess/multithread/case004/other/SearchDemo.java:19-57 | with a used cell every run returns the old index, or -1 if that is 0 |
| Search.SearchEnds | src/main/java/com/ezfun/guess/multithread/case004/other/SearchDemo.java:39-89 | no run takes more than ten steps for each element and ten more |
| Search.ChunkSizeLeast | src/main/java/com/ezfun/guess/multithread/case004/other/SearchDemo.java:61-61 | the chunk size is the least with which as many chunks as threads cover the array |
| Search.ChunksExactly | src/main/java/com/ezfun/guess/multithread/case004/other/SearchDemo.java:74-82 | in every run the k-th task gets the positions from k times the size up to the next multiple or the end |
| Search.FoundStopsTasks | src/main/java/com/ezfun/guess/multithread/case004/other/SearchDemo.java:40-52 | once the cell holds a positive index it stays, and every task ends within three further steps of its own |
| CountTask.SplitCoversOnce | src/main/java/com/ezfun/guess/thread/ForkJoinPoolDemo.java:37-46 | every number of the range lies in exactly one of the 10000 subranges |
| CountTask.Split | src/main/java/com/ezfun/guess/thread/ForkJoinPoolDemo.java:37-47 | the subranges are short and their sums add up to the sum of the range, those past the end adding nothing |
| CountTask.Compute | src/main/java/com/ezfun/guess/thread/ForkJoinPoolDemo.java:27-54 | on every range that ends, returns its sum, as a long; a split range never overflows; below 10^9 it is (end - start + 1)(start + end) / 2 |
| CountTask.EndsExactly | src/main/java/com/ezfun/guess/thread/ForkJoinPoolDemo.java:30-47 | for a long range some depth of recursion suffices if and only if its step is below 10000, or is 10000 with at most 20001 numbers and a first subrange whose step is below 10000 |
| CountTask.StepAtThreshold | src/main/java/com/ezfun/guess/thread/ForkJoinPoolDemo.java:37-43 | two ranges with step 10000 that differ by one number, of which one ends and the other does not |
| CountTask.OverflowInverts | src/main/java/com/ezfun/guess/thread/ForkJoinPoolDemo.java:37-46 | where start + end overflows, the step is negative and every subrange is inverted and adds nothing; elsewhere the long step is the mathematical one |
| Observers.RoundKeepsAndHalves | src/main/java/com/ezfun/guess/designpattern/observer/WeatherData.java:41-46 | a round keeps the staying observers in order and removes at least half of the others, rounded up |
| Observers.NotifiedIsSubsequence | src/main/java/com/ezfun/guess/designpattern/observer/WeatherData.java:41-46 | notified observers are list entries at ascending positions, so none is notified twice |
| Observers.RoundIsStructural | src/main/java/com/ezfun/guess/designpattern/observer/WeatherData.java:41-56 | on distinct observers the loop over the shrinking list is that round, remaining and notified alike |
| Observers.NotifyingEmptiesOut | src/main/java/com/ezfun/guess/designpattern/observer/OtherObserver.java:41-45 | after logarithmically many rounds exactly the staying observers are left, in order |
| Observers.WeatherData.RegisterObserver | src/main/java/com/ezfun/guess/designpattern/observer/WeatherData.java:49-51 | appends to the list |
| Observers.WeatherData.RemoveObserver | src/main/java/com/ezfun/guess/designpattern/observer/WeatherData.java:54-56 | removes the first occurrence of the observer, with everything before and after it kept in order, and leaves a list without it as it is |
| Observers.WeatherData.Update | src/main/java/com/ezfun/guess/designpattern/observer/OtherObserver.java:28-45 | a self-removing observer stores the values and leaves the list; any other stays as it is |
| Observers.WeatherData.NotifyObserver | src/main/java/com/ezfun/guess/designpattern/observer/WeatherData.java:41-46 | ends for every list, duplicates included; notified self-removing observers hold the measurements, all other observers are unchanged |
| Pipeline.PlusBody | src/main/java/com/ezfun/guess/multithread/case004/pstream/Plus.java:17-18 | in place, turns a message that still has to pass all stages into one that has passed this one, with the same number to be printed at the end |
| Pipeline.MultiplyBody | src/main/java/com/ezfun/guess/multithread/case004/pstream/Multiply.java:16-17 | in place, leaves exactly the halving to be done for the same number to be printed |
| Pipeline.DivBody | src/main/java/com/ezfun/guess/multithread/case004/pstream/Div.java:18-19 | in place, leaves in i the number that was to be printed |
| Pipeline.PassStages | src/main/java/com/ezfun/guess/multithread/case004/pstream/Div.java:14-23 | one message object handed through the three stages ends with i (i + j) / 2 of its first values in i |
| Pipeline.StepStream | src/main/java/com/ezfun/guess/multithread/case004/pstream/Multiply.java:13-22 | no thread step changes the sequence of printed and still expected numbers; a submission appends i (i + j) / 2 |
| Pipeline.OutputsInOrder | src/main/java/com/ezfun/guess/multithread/case004/pstream/Div.java:14-23 | in every run the output is a prefix of i (i + j) / 2 over the inputs in order, and nothing is lost or duplicated |
| Pipeline.NineSteps | src/main/java/com/ezfun/guess/multithread/case004/pstream/Multiply.java:13-22 | in every run the thread steps taken and those left are nine for each submitted message, so no schedule keeps the threads busy without printing |
| Pipeline.PrintedExactly | src/main/java/com/ezfun/guess/multithread/case004/pstream/Div.java:14-23 | everything submitted has been printed if and only if nine thread steps for each message have been taken |
| Pipeline.AllGetsPrinted | src/main/java/com/ezfun/guess/multithread/case004/pstream/PStreamMain.java:8-25 | from every reachable state the threads alone reach a state where everything submitted is printed |
| Pipeline.QuietMeansDone | src/main/java/com/ezfun/guess/multithread/case004/pstream/Plus.java:14-23 | when no thread can step, every submitted message has been printed |
| Utf8Encoder.Dec2Dig | src/main/java/com/ezfun/guess/html/index.html:327-340 | four greedy binary digits of the argument |
| Utf8Encoder.Dig2Dec | src/main/java/com/ezfun/guess/html/index.html:298-307 | the weighted sum of four digits, -1 for any other length |
| Utf8Encoder.NibbleBits | src/main/java/com/ezfun/guess/html/index.html:298-340 | Dig2Dec inverts Dec2Dig on hexadecimal digits |
| Utf8Encoder.Str2HexInvertible | src/main/java/com/ezfun/guess/html/index.html:342-353 | Str2Hex can be undone on hexadecimal strings of any length |
| Utf8Encoder.Str2Hex | src/main/java/com/ezfun/guess/html/index.html:342-353 | concatenates the bits of the characters |
| Utf8Encoder.Hex2Utf8 | src/main/java/com/ezfun/guess/html/index.html:308-326 | cuts and marks sixteen bits into three bytes; nothing for other lengths |
| Utf8Encoder.ThreeBytesCorrect | src/main/java/com/ezfun/guess/html/index.html:308-353 | for every code unit the bits, marks and digits give 0xE0 + u / 4096, 0x80 + u / 64 mod 64, 0x80 + u mod 64 in percent form |
| Utf8Encoder.Gb2312ToUtf8 | src/main/java/com/ezfun/guess/html/index.html:354-376 | the loop over the pieces computes the encoding function |
| Utf8Encoder.EncodesUtf8 | src/main/java/com/ezfun/guess/html/index.html:354-376 | strings of unreserved characters and characters from U+0800 on, surrogates excluded, become their percent-encoded UTF-8 |
| Utf8Encoder.ReferenceDecodes | src/main/java/com/ezfun/guess/html/index.html:354-376 | the strict decoder gives back every string without surrogates from its percent-encoded UTF-8, in one, two and three bytes |
| Utf8Encoder.UnreservedExactly | src/main/java/com/ezfun/guess/html/index.html:355-355 | the characters escape leaves alone, by their 69 codes |
| Utf8Encoder.RoundTripExactly | src/main/java/com/ezfun/guess/html/index.html:354-376 | a string without percent signs survives strict decoding if and only if each character is unreserved, or from U+0800 on and no surrogate, or another ASCII character followed by at most three unreserved ones before the next escaped one or the end |
| Utf8Encoder.OverlongExample | src/main/java/com/ezfun/guess/html/index.html:362-367 | U+0100 becomes an overlong form that decoding rejects |
| Utf8Encoder.ShortEscapePiece | src/main/java/com/ezfun/guess/html/index.html:368-373 | the two-digit branch writes the character unencoded and repeats the text after it from its fourth character on |

`BlockingQueueSyc` repeats the array statements of `BlockingQueueLock`; both are the one queue of
`RingBuffer.dfy`, and the two monitors differ in their step systems.

## Left out

- Utf8Encoder.RoundTripExactly: strings that contain a percent sign, which the encoder writes unescaped so that the text after it can be read as an escape.
- CountTask.Compute: ranges that start below 0 and are split are not modelled; for those whose start + end overflows a long see `OverflowInverts`.
- CountTask.EndsExactly: the step is the mathematical one, so the statement is about ranges whose start + end is a long.
- SyncPool.Pool.Push: calls are sequential; races on the static counter between the test, the reset and the increment are not modelled.
- Pipeline.OutputsInOrder: doubles are reals, so rounding is not modelled; messages are values in the step system, and the update in place is in the three bodies. The label printed with a number is not modelled.
- Observers.WeatherData.Update: one method for both kinds of observer; floats are reals, and the printing of `ScreenObserver` is not modelled.
- MessageSystem.Conservation: pushing one object twice, and so sharing its retry counter, is not modelled; messages are told apart by identity.
- `pShellSort2`, `shellSort2`, the second `CountTask` and `Utf8ToGb2312`: broken or duplicate code.
- The exception classes a consumer tells apart: the handler outcome is an input with four values.
- Interrupts, sleeping, logging, thread pools and the Java memory model.
- Fairness: progress is stated as enabled steps and bounded work, not as eventual scheduling.
- The servers, Spring, Elasticsearch, Akka, Disruptor and small lock demos: wrappers over libraries.

# Concurrent prime sieves and a distributed line sorter: a model and its proofs

This project models the two hard programs of the repository and proves what they are for.

**The sieve kernel modules** (`lab2`). Any number of kernel threads run
`sbarrier(); compute(); sbarrier();` over a shared array, a shared index under a spinlock, one
counter per thread and a reusable two-counter spin barrier. One transition system
(`SieveMachine`) serves the Eratosthenes and the Sundaram module; a step is one shared-memory
access of one thread, and a schedule is any sequence of thread numbers, so every statement over a
schedule is a statement over every interleaving, every number of threads and every upper bound.
`SieveModule.Sieve` is the module as a class that updates its variables in place; its methods are
proved to take exactly the machine's steps.

**The distributed sorter** (`lab3`). A server hands out one input file per connection, line by
line; each client puts its lines into a heap and sends them back sorted; the server reassembles
lines from arbitrary pieces, merges them in its own heap and prints that heap. `Heap.MinHeap` is
the paged array heap, `Session.RwObj` a connection, `Server.EventLoop` the event loop and `Client`
the client program, all updating in place. `Sorter` is the whole system as a transition system
whose events come in any order, with any cut of the byte streams in both directions;
`Server.EventLoop` is proved to take the server's steps and `SorterClients` shows that the client
program takes the clients'.

| file | content |
|---|---|
| `Sums.dfy` | sums over sequences, used for all counting arguments |
| `SieveMachine.dfy` | the sieve modules as a transition system |
| `SieveBarrier.dfy` | the barrier's invariant and what it promises |
| `SieveMemory.dfy` | the invariant of the shared index, the lock and the array |
| `SieveWork.dfy` | the invariants that tie the counters to work and waste |
| `SieveProgress.dfy` | no deadlock, termination, the overshoot of the index |
| `SieveLifecycle.dfy` | the running flag |
| `Primes.dfy` | prime divisors, Sundaram's identity |
| `SieveResults.dfy` | what a finished run has computed and what it cost |
| `SieveSchedules.dfy` | mutual exclusion, and when the schedule changes the work |
| `SieveModule.dfy` | the module as a class, and its whole life |
| `HeapOrder.dfy` | sift-up and sift-down on sequences |
| `HeapPlaces.dfy` | where sifting leaves every entry, ties included |
| `HeapPages.dfy` | growing and shrinking of the table |
| `Heap.dfy` | the heap as a class over an array |
| `Wire.dfy` | numbers, lines, keyed lines |
| `Framing.dfy` | short reads and short writes |
| `Session.dfy` | one connection, and `insert_string` |
| `Client.dfy` | the client program |
| `Sorter.dfy` | the sorter as a transition system |
| `SorterResults.dfy` | what every run of the sorter delivers |
| `SorterProgress.dfy` | no run gets stuck or goes on forever |
| `SorterClients.dfy` | the client program in the sorter |
| `Server.dfy` | the event loop as a class, and the final output |

## Assumptions

- Memory is sequentially consistent and `int` accesses are whole. Under this assumption the plain
  variants lab2/lab2.c and lab2/lab2_sundaram.c take the same steps as the atomic ones, and the
  results hold for them as well. `barrier_state++` is one step: only the last thread in performs it.
- The heap's comparison returns exactly -1, 0 or 1 (lab3/heap.h:33-35), because sift-down tests
  for `== 1`. An ordering is given by a rank of the keys.
- Input files consist of lines `key SP text LF` with a key of one to five digits, no NUL byte, and
  at most 1024 bytes with the line feed; there is at least one input file. I/O calls succeed and
  move at least one byte; the stop message is written whole (`Framing.ShortWritesConserve` says what
  is sent otherwise); the end of a stream is readable until an empty read has been handled. A file is shorter than 4 GiB, since `line_len` is an unsigned int
  that uses its largest value for the end of the file.

## Where the code and its documentation disagree

- lab2/lab2_sundaram_atomic.c:185-189 prints the "unnecessary cross out" one too high in every run:
  `best_count` subtracts a prime count that already includes 2 (line 150). `SieveModule.LoadRunUnload`
  proves the value printed, and `SieveResults.CrossOutsConserved` the law against the real number of
  zeroed entries. The Eratosthenes formula is exact.
- lab2/readme.txt:42-43 reports more unnecessary cross-outs with more threads. Exactly: the schedule
  can make a difference if and only if there are at least two threads and the bound is at least 8
  (`SieveSchedules.ScheduleMattersIff`); one thread always does the least work.
- Reassembly of lines fails for lines longer than the read buffer: a full buffer without a line feed
  makes `read` return 0, which the server takes for the end of the stream (lab3/server.c:350-376).
  `Framing.ReadingSucceedsIff` and `Framing.ReadingFailsIff` give the exact condition, and
  `Framing.LongLineFails` an input that fails.
- The client's send buffer has room for five characters besides the longest line read
  (lab3/client.c:212). `Wire.BufferSufficesIff` says exactly when that is enough whatever buffers the
  library returns, `Wire.SendBufferFitsIff` that a single line can rely on it exactly up to the key
  99999, and `Wire.SendBufferOverflows` gives a line that overflows.
- lab3/server.c:25 does not retry a short write of the stop message: `Framing.ShortWritesConserve`
  proves that the whole stream goes out if and only if that write takes all four bytes.

## Model

| member | source | states |
|---|---|---|
| SieveMachine.Step | lab2/lab2_atomic.c:88-95 | One access of one thread keeps the sizes of all arrays and touches no other thread's position or counter. |
| SieveBarrier.BarrierHolds | lab2/lab2_atomic.c:32-55 | In every reachable state the guards equal the threads that have come in, respectively left, in the current phase; exactly one thread is closing a gathering when the start guard is 0, and exactly one is clearing when the end guard is full. |
| SieveBarrier.NobodyReturnsEarly | lab2/lab2_atomic.c:32-55 | No thread returns from its r-th barrier call before every thread has entered its own r-th call. |
| SieveBarrier.NobodyEntersEarly | lab2/lab2_atomic.c:33-35 | No thread stands before the decrement of the start guard for a round before every thread has left the spin of the round before. |
| SieveBarrier.GatheringFull | lab2/lab2_atomic.c:35-44 | When a thread has brought the start guard to 0, all threads are inside the same round and no other thread closes it. |
| SieveBarrier.RoundLeft | lab2/lab2_atomic.c:48-49 | When a thread has filled the end guard, all threads have left the round and no other thread clears it. |
| SieveBarrier.ReopenStep | lab2/lab2_atomic.c:44 | Resetting the start guard keeps the barrier invariant: nobody is ahead who would be counted twice. |
| SieveBarrier.ClearStep | lab2/lab2_atomic.c:48-49 | Resetting the end guard keeps the barrier invariant, so the barrier can be used again. |
| SieveBarrier.BarrierStateOnce | lab2/lab2_atomic.c:36-43 | `barrier_state` never falls, stays within 0..2, and rises by one only when all threads have entered that round: it takes each value once. |
| SieveMemory.MemoryStepKeeps | lab2/lab2_atomic.c:57-86 | Every step keeps the memory invariant: one lock holder, every zero is a multiple of a taken index, every entry a taken index must cross out is zero or still before its owner, the scan skips only zeroes. |
| SieveMemory.MemoryHolds | lab2/lab2_atomic.c:57-86 | The memory invariant holds in every state of every interleaving. |
| SieveSchedules.MutualExclusion | lab2/lab2_atomic.c:61-70 | At most one thread is between lock and unlock. |
| SieveSchedules.IndexTakenOnce | lab2/lab2_atomic.c:69 | An index taken by a thread keeps that owner for the rest of the run. |
| SieveWork.WorkHolds | lab2/lab2_atomic.c:75-80 | At any moment the counters plus what threads in the inner loop still owe equal the cost of the taken indices; the counters plus pending increments equal the zeroes plus the writes that found a zero. |
| SieveWork.WorkAtRest | lab2/lab2_atomic.c:169-171 | After `compute` the counters add up to the cost of the taken indices, and exceed the zeroed entries by exactly the wasted writes. |
| SieveProgress.OvershootExact | lab2/lab2_atomic.c:59-82 | Above the bound the shared index is bound + 1 + the number of threads that took an index too high, each at most once; so it never exceeds bound + threads + 1. |
| SieveProgress.LastTakerStops | lab2/lab2_atomic.c:82 | The thread that takes the last index within the bound takes no further one; so in the Sundaram module fewer threads than there are take an index too high, and the index stays within bound + threads. |
| SieveProgress.SpinOrBurn | lab2/lab2_atomic.c:32-95 | Every step either spins without changing anything or brings the measure down, which is never negative. |
| SieveProgress.SomebodyMoves | lab2/lab2_atomic.c:32-95 | While a thread is unfinished, some thread has a step that is not spinning: neither barrier nor the lock can deadlock. |
| SieveProgress.EffectiveStepsBounded | lab2/lab2_atomic.c:57-95 | No schedule makes more non-spinning steps than the initial measure. |
| SieveProgress.FairRunsFinish | lab2/lab2_atomic.c:88-95 | Every schedule that keeps giving each thread a turn ends with all threads returned. |
| SieveSchedules.RunCompletes | lab2/lab2_atomic.c:88-95 | From every reachable state the run can be completed. |
| SieveLifecycle.PastComputeFreezes | lab2/lab2_atomic.c:82-95 | Threads past `compute` never write the array or a counter, under any further schedule. |
| SieveLifecycle.FlagDownMeansFinal | lab2/lab2_atomic.c:93 | Once the flag is down, all threads have left `compute`, both barriers have gathered, and the array and the counters are final. |
| SieveLifecycle.DoneTakesFlagDown | lab2/lab2_atomic.c:93-94 | A thread that has returned leaves the flag down. |
| SieveResults.EratosthenesFindsPrimes | lab2/lab2_atomic.c:57-86 | After any interleaving of any number of threads, entry x is x if x is prime and 0 if it is composite, although threads may pick composites. |
| SieveResults.SundaramFindsOddPrimes | lab2/lab2_sundaram_atomic.c:58-87 | After any interleaving, entry k is k if 2k+1 is prime and 0 otherwise. |
| SieveResults.SundaramTargets | lab2/lab2_sundaram_atomic.c:68-82 | Breaking off at the first index above the bound loses no entry. |
| SieveResults.ScanStopsAt | lab2/lab2_atomic.c:64-66 | When a scan stops at x, every smaller prime that divides x is owned by another thread that still has the write of x before it: the only way to pick a composite. |
| SieveResults.PrimeNumsIsPi | lab2/lab2_atomic.c:148-159 | The printed prime count is pi(bound), for Sundaram pi(2*bound+1). |
| SieveResults.SievesAgree | lab2/readme.txt:82-85 | A Sundaram run at n prints the odd primes that an Eratosthenes run at 2n+1 prints, whatever the thread counts and schedules. |
| SieveResults.CrossOutsConserved | lab2/lab2_atomic.c:179-180 | The counters less the crossed-out entries, computed from the prime count, are exactly the writes that hit a zero; for Sundaram with the corrected formula. |
| SieveResults.EratosthenesCost | lab2/lab2_atomic.c:75-80 | Taking the index o costs bound/o - 1 cross-outs. |
| SieveResults.EratosthenesWorkLaw | lab2/lab2_atomic.c:63-82 | The counters add up to bound/o - 1 over the taken indices; these include all primes, so no run does less than the work on the primes. |
| SieveResults.SoloWorkIsLeast | lab2/readme.txt:42-43 | One thread takes only primes and does exactly the least work. |
| SieveSchedules.ExtraWorkIff | lab2/lab2_atomic.c:64-80 | A finished run does the least work if and only if it has taken no composite up to half the bound. |
| SieveSchedules.ScheduleMattersIff | lab2/readme.txt:42-43 | Some schedule does more than the least work if and only if there are at least two threads and the bound is at least 8. |
| SieveResults.SundaramWorkFixed | lab2/lab2_sundaram_atomic.c:61-83 | The counters add up to the number of pairs 1 <= i <= j with i+j+2ij <= bound, in every run. |
| SieveResults.IntsFit | lab2/lab2_sundaram_atomic.c:65-70 | The shared index and the inner loops' index never exceed the stated limits, so `int` suffices when they fit. |
| Primes.SundaramSound | lab2/lab2_sundaram_atomic.c:70 | i+j+2ij names a composite odd number. |
| Primes.SundaramComplete | lab2/lab2_sundaram_atomic.c:70 | Every composite odd number 2x+1 is named by a pair 1 <= i <= j with x = i+j+2ij. |
| SieveModule.Sieve.constructor | lab2/lab2_atomic.c:112-132 | The initial state of the machine. |
| SieveModule.Sieve.SBarrier | lab2/lab2_atomic.c:32-55 | Takes exactly the machine's barrier step, in place. |
| SieveModule.Sieve.Compute | lab2/lab2_atomic.c:57-86 | Takes exactly the machine's compute step, in place. |
| SieveModule.Sieve.CrossOut | lab2/lab2_sundaram_atomic.c:74 | Writes one zero and nothing else. |
| SieveModule.Sieve.SieveFn | lab2/lab2_atomic.c:88-95 | Takes exactly one step of the machine. |
| SieveModule.Sieve.Execute | lab2/lab2_atomic.c:129-132 | Threads interleaved by a schedule reach the machine's state after that schedule. |
| SieveModule.Sieve.Exit | lab2/lab2_atomic.c:137-191 | Refuses while the flag is up; otherwise prints the surviving entries, their number, the non-primes, the sum of the counters and the excess as the code computes it. |
| SieveModule.FlagTellsTheTruth | lab2/lab2_atomic.c:140-145 | The flag is down after a finished run, and only when all threads are past `compute` and a barrier has been counted. |
| SieveModule.EratosthenesReportIsRight | lab2/lab2_atomic.c:144-180 | The report lists exactly the primes up to the bound; the excess is the wasted writes. |
| SieveModule.SundaramReportIsRight | lab2/lab2_sundaram_atomic.c:146-189 | With 2 in front the report lists exactly the primes up to 2*bound+1; the printed excess is the wasted writes plus one. |
| SieveModule.LoadRunUnload | lab2/lab2_sundaram_atomic.c:99-200 | Load, any schedule, unload: loads exactly with at least one thread and a bound of at least 2, reports exactly once the flag is down, as after every finished run, and what it reports is the primes, their count, the count of the others, and the stated work. |
| HeapOrder.SiftUpPermutes | lab3/heap.c:212-237 | Sift-up permutes the table. |
| HeapOrder.SiftUpOrders | lab3/heap.c:212-237 | Sift-up restores heap order when only the lifted entry can be out of place. |
| HeapOrder.SiftDownPermutes | lab3/heap.c:284-332 | Sift-down permutes the table. |
| HeapOrder.SiftDownOrders | lab3/heap.c:284-332 | Sift-down restores heap order when only the sunk entry can be out of place. |
| HeapOrder.RootIsLeast | lab3/heap.c:155-170 | In a heap-ordered table the root has a least key. |
| HeapOrder.InsertIsRight | lab3/heap.c:198-240 | Insert keeps heap order and adds exactly one entry to the multiset. |
| HeapOrder.RemoveIsRight | lab3/heap.c:245-333 | Delmin keeps heap order and removes exactly one entry, one with a least key. |
| HeapPlaces.SiftUpPlaces | lab3/heap.c:212-237 | Position by position: entries above the lifted one move down one place exactly if they are strictly greater, it takes the place that gets free, and nothing else moves. |
| HeapPlaces.SiftDownPlaces | lab3/heap.c:284-332 | Position by position: on the path that goes left unless the right child is strictly smaller, entries move up one place exactly if they are strictly smaller than the sunk one, which takes the place that gets free; nothing else moves. |
| HeapPlaces.InsertMovesOnlyGreater | lab3/heap.c:221 | An insertion leaves every entry in place whose key is at most the new key; the root stays on a tie. |
| HeapPlaces.InsertMovesEachGreater | lab3/heap.c:221-228 | Entries above the new one that are greater make room by one place each. |
| HeapPlaces.LeftRisesOnTie | lab3/heap.c:294-300 | When both children of the root have the same key, below that of the last entry, the left one becomes the root. |
| HeapPlaces.TieStaysAtRoot | lab3/heap.c:297-304 | A last entry that is not greater than the root's children stays at the root. |
| HeapPages.UsedIsCeiling | lab3/heap.c:336 | Used pages are the least number of pages that hold the entries. |
| HeapPages.InsertBounded | lab3/heap.c:178-196 | Insert, growing or not, keeps the memory bound and room for every entry. |
| HeapPages.DelMinBounded | lab3/heap.c:335-355 | Delmin, shrinking or not, keeps the memory bound and room for every entry. |
| HeapPages.MemoryStaysBounded | lab3/heap.c:121-129 | After create and any operations: minimum <= allocated <= max(2*used + 3, 2*minimum - 1) pages, and the entries fit. |
| HeapPages.CreatedPages | lab3/heap.c:110-126 | Create maps one page for a size that is not positive, and otherwise the least number of pages that hold the size; there are no entries and this is the minimum. |
| HeapPages.MappedIsPowerOfTwo | lab3/heap.c:182-341 | In every reachable state the allocated pages are the minimum times a power of two: the table only doubles and halves. |
| HeapPages.GrowThenShrink | lab3/heap.c:180-195 | Between a grow and the next shrink lie at least two pages of operations. |
| HeapPages.ShrinkThenGrow | lab3/heap.c:339-355 | Between a shrink and the next grow lie at least two pages of operations. |
| HeapPages.Hysteresis | lab3/heap.c:339-355 | The same from every reachable state, in both directions. |
| HeapPages.HysteresisIsTight | lab3/heap.c:339-355 | For every page size there is a history in which both bounds are attained: a shrink exactly two pages of operations after a grow, and a grow exactly two pages of operations after that shrink. |
| Heap.MinHeap.constructor | lab3/heap.c:99-130 | An empty heap with the stated pages; a size that is not positive means one page. |
| Heap.MinHeap.Size | lab3/heap.c:149-152 | The number of live entries. |
| Heap.MinHeap.Min | lab3/heap.c:156-170 | Fails exactly on the empty heap; otherwise an entry whose key is least among all. |
| Heap.MinHeap.FillHole | lab3/heap.c:204-237 | Moving the hole up leaves the same table as sifting the new entry up by swaps, and, on an ordered table, every entry at its place. |
| Heap.MinHeap.SinkRoot | lab3/heap.c:284-332 | The in-place loop leaves the sifted-down table, and, on a table ordered but for the root, every entry at its place. |
| Heap.MinHeap.MakeRoom | lab3/heap.c:178-196 | Doubles exactly when full; all live entries survive; there is room for one more. |
| Heap.MinHeap.GiveBack | lab3/heap.c:335-355 | Maps half as many pages exactly under the code's condition and otherwise as many; all live entries survive the partial copy. |
| Heap.MinHeap.Insert | lab3/heap.c:174-241 | Adds exactly the given pair to the multiset, keeps heap order and the memory bound, in place; says where every entry ends up. |
| Heap.MinHeap.DeleteMin | lab3/heap.c:245-359 | Fails exactly on the empty heap, changing nothing; otherwise removes exactly one pair, with a least key, and says where every other entry ends up. |
| Heap.MinHeap.Drain | lab3/server.c:416-423 | Repeated delmin yields all entries as a permutation in ascending key order. |
| Session.CmpNodeCompares | lab3/server.c:35-42 | The key comparison returns exactly -1, 0 or 1 and orders keys by value. |
| Wire.DigitsRoundTrip | lab3/client.c:219 | Printing a number in decimal and reading it gives the number back. |
| Wire.SkipSpacesStops | lab3/client.c:95 | White space is exactly blank, tab, line feed, carriage return, vertical tab and form feed; reading a number skips it up to the first other character. |
| Wire.ScanIntReads | lab3/client.c:95 | Any white space, sign and digits are read as the number they stand for, up to the first other character. |
| Wire.ScanIntMisses | lab3/client.c:95-96 | Without a digit there is no number; the white space and the sign are consumed. |
| Wire.CStrCut | lab3/client.c:221 | A C string ends before its first NUL, whatever follows. |
| Wire.ParsesAtFirstSpace | lab3/server.c:59-69 | Any line is divided at its first space: the number in front is the key, what follows up to a NUL is the text; without a space there is no key. |
| Wire.LinesOfConcat | lab3/server.c:357-364 | Splitting a concatenation of lines gives the lines back. |
| Wire.LinesJoin | lab3/server.c:357-370 | Lines found and the unfinished rest make up the stream again. |
| Wire.LinesAppend | lab3/server.c:346-370 | The lines of a + b are those of a, then those of the unfinished rest of a followed by b. |
| Wire.ClientReadsLine | lab3/client.c:94-116 | The client parses a well-formed line off its stream to exactly its key and text, whatever follows. |
| Wire.ClientReadsStop | lab3/client.c:100-103 | The client recognises the stop message. |
| Wire.EncodesUpToNul | lab3/client.c:219-221 | What is sent is the key in decimal, a space, and the text up to its first NUL. |
| Wire.EncodeIsLine | lab3/client.c:217-221 | What the client sends for an entry is one line. |
| Wire.WireRoundTrip | lab3/server.c:59-75 | The server parses the sent line back to exactly the key and the text. |
| Wire.EntryOfIsGood | lab3/client.c:219-221 | A line read from an input is never longer when it is sent back. |
| Wire.SendBufferFitsIff | lab3/client.c:212-221 | A line fits the send buffer whatever capacities the library returns if and only if its key is at most 99999. |
| Wire.SendBufferOverflows | lab3/client.c:212-221 | A line with the key 100000 and a capacity the library may return for it, for which the encoding does not fit. |
| Wire.BufferSufficesIff | lab3/client.c:200-221 | All lines read can be sent, whatever capacities the library returns, if and only if each fits the buffer that some line read makes room for. |
| Framing.NegativeNeverInserted | lab3/server.c:72-75 | No line with a negative key is ever inserted. |
| Framing.ChunksDoNotMatter | lab3/server.c:346-370 | However the stream is cut, the lines inserted are the complete lines read so far, in order, and the buffer holds exactly the unfinished line. |
| Framing.UnfinishedIsPartOfLine | lab3/server.c:366-370 | What stays in the buffer is a proper part of the line the stream completes it to. |
| Framing.RoomForOneMore | lab3/server.h:30 | If every line fits the buffer, there is always room for at least one more byte. |
| Framing.ReadingSucceedsIff | lab3/server.c:350-376 | When the server stops reading, it has read the whole stream if and only if every line, with its line feed, fits the buffer. |
| Framing.ReadingFailsIff | lab3/server.c:350-376 | Some way of cutting the stream makes the server stop before its end if and only if some line does not fit, and then every way does. |
| Framing.LongLineFails | lab3/server.c:350-376 | A keyed line of 1026 bytes, read as 1024 bytes, is given up two bytes before its end. |
| Framing.ReadingStops | lab3/server.c:350-376 | Whatever was read, reading can go on until the server stops. |
| Framing.SendOnceConserves | lab3/server.c:16-32 | One call moves at least one unsent byte out, in order; with nothing unsent it sends as much of the stop message as the write takes. |
| Framing.NextLineIsFirst | lab3/server.c:23 | A call to getline returns the first complete line and leaves the others, or returns all there is. |
| Framing.OneLineACall | lab3/server.c:19-28 | A call takes exactly one line from the file, and only when the line before it is out. |
| Framing.SendsLineByLine | lab3/server.c:16-32 | Over any sequence of short writes, the line in flight is the last of the lines taken, all before it are out, and the file holds exactly the others. |
| Framing.ShortWritesConserve | lab3/server.c:16-32 | For every sequence of write amounts, what went out followed by what is to go is the file, and it ends: the output is then the file and the stop message if and only if the stop message's write took it whole. |
| Session.RwObj.constructor | lab3/server.c:327-332 | A new connection has sent nothing of its file. |
| Session.RwObj.ReadAndSend | lab3/server.c:16-32 | Does exactly one conserving send, in place: it finishes the line in flight, or takes exactly the next line of the file and returns its length. |
| Session.RwObj.StartReceiving | lab3/server.c:390-393 | An empty read buffer of full size. |
| Session.CutAtSpace | lab3/server.c:59-71 | In place, the loop divides the line at its first space into exactly the parsed key and text; without a space the line is unchanged. |
| Session.InsertString | lab3/server.c:49-78 | Inserts exactly the parsed entry, or nothing for a negative key, while overwriting the space in the line; without a space, a key of unknown value and no text. |
| Session.RwObj.CopyLine | lab3/server.c:359 | Copies exactly the bytes of one line. |
| Session.RwObj.ScanLines | lab3/server.c:355-365 | Inserts exactly the complete lines of the buffer; `line_len` ends at the unfinished rest. |
| Session.RwObj.TakeLine | lab3/server.c:358-364 | Inserts the line that ends at j and moves on behind it. |
| Session.RwObj.Compact | lab3/server.c:367-370 | The overlapping forward copy leaves exactly the unfinished line at the front. |
| Session.RwObj.OnReadable | lab3/server.c:345-377 | A read inserts exactly the lines it completes and keeps exactly the rest; empty means end of stream. |
| Client.Stream.ScanNumber | lab3/client.c:95 | Skips white space and reads a signed decimal number, or reports the end or a mismatch; says what is consumed in each case. |
| Client.Stream.GetLine | lab3/client.c:113 | Reads up to and with the next line feed; the buffer is longer than the line. |
| Client.ReadsNumberAndText | lab3/client.c:94-122 | From any white space, digits, one character and text, the client reads the number and the text up to the line feed; without a text it reads none. |
| Client.ReadsNegativeAsStop | lab3/client.c:100-103 | Any negative number stops the client, whatever follows it. |
| Client.ReadKeyedLine | lab3/client.c:83-117 | The entry at the front of the stream, or which of the four ways reading ends; without a number, the key has an unknown value. |
| Client.ReadAndInsert | lab3/client.c:83-123 | Inserts exactly the entry at the front of the stream and consumes it, or inserts nothing; in every case a key that is not negative, and progress. |
| Client.ReceiveLines | lab3/client.c:200-207 | Ends on every stream, with every text shorter than the length returned; if no number is missing, the heap holds exactly the lines before the stop message. |
| Client.PrepareLine | lab3/client.c:219-221 | The buffer holds exactly the encoded entry and its NUL. |
| Client.WriteAll | lab3/client.c:223-227 | However the socket cuts the writes, exactly the line goes out. |
| Client.SendLeast | lab3/client.c:215-232 | Sends exactly the encoding of one entry with a least key and removes it. |
| Client.SendBack | lab3/client.c:209-233 | Sends every entry once, in ascending key order, each line whole, within the buffer. |
| Client.SortLines | lab3/client.c:196-233 | The client sends back a sorted permutation of the lines it has read. |
| SorterClients.FileFeedsClient | lab3/client.c:200-212 | What the server sends for a file is a stream without a missing number; the client reads exactly the file's entries from it, and its send buffer suffices. |
| SorterClients.ServerTakesBack | lab3/server.c:346-370 | Whatever sorted encoding of these entries a client sends, all of it fits the read buffer and exactly the entries are inserted. |
| SorterClients.SortFileLines | lab3/client.c:196-233 | The client program, given a file and the stop message, sends a sorted encoding of exactly the file's entries, which the server inserts exactly. |
| SorterClients.ClientParse | lab3/client.c:83-123 | Reading a line on the real stream and heap takes exactly the system's step. |
| SorterClients.ClientPop | lab3/client.c:215-232 | Taking out and encoding a line on the real heap takes exactly the system's step; an empty heap is the exit. |
| SorterClients.ClosedDeliversSorted | lab3/client.c:209-233 | In every run, a closed connection has delivered a stream that meets the client program's contract for its file. |
| Sorter.LinkStepKeeps | lab3/server.c:303-413 | Every event of a connection keeps the conservation of its bytes downstream, of its entries in the client and of its bytes upstream. |
| Sorter.AlwaysRoom | lab3/server.c:350 | In every reachable state the server's read has room for a byte, so an empty read does mean the end of the stream. |
| Sorter.DecodeAll | lab3/server.c:355-365 | The server decodes the stream a client posts to exactly the entries posted, and every line fits. |
| SorterResults.PrintsUpToNul | lab3/server.c:418 | Each text is printed up to its first NUL, and whole without one. |
| SorterResults.SystemHolds | lab3/server.c:303-423 | In every reachable state: the heap and what is printed are exactly what the connections delivered, the limit counts the open connections, nothing is printed before all are closed, and the output is ascending and below the heap. |
| SorterResults.AllDelivered | lab3/server.c:408-413 | When the last connection is closed, exactly the entries of all input files have been delivered. |
| SorterResults.SorterSorts | lab3/server.c:303-423 | For every order of events and every cut of the streams, the finished output is the texts of all input lines, a permutation, in ascending key order. |
| SorterResults.AscendingIsUnique | lab3/server.c:416-423 | With equal keys on equal entries only, there is one ascending arrangement. |
| SorterResults.ScheduleDoesNotMatter | lab3/server.c:303-423 | With distinct keys, any two finished runs print the same output. |
| SorterProgress.NeverStuck | lab3/server.c:303-423 | Unless the server has finished, some event is possible. |
| SorterProgress.EventBurns | lab3/server.c:303-423 | Every event brings the measure down, which stays a natural number. |
| SorterProgress.RunsAreFinite | lab3/server.c:303-423 | No run has more events than the measure of the inputs. |
| SorterProgress.EveryRunCompletes | lab3/server.c:303-423 | Every run can be continued to a finished server. |
| Server.EventLoop.constructor | lab3/server.c:288-300 | The event loop starts where the transition system starts. |
| Server.EventLoop.OnConnection | lab3/server.c:313-343 | The new connection gets the next input file; no other connection changes. |
| Server.EventLoop.OnOutputReady | lab3/server.c:379-399 | One conserving send; after the stop message the connection waits for input; no other connection changes. |
| Server.EventLoop.OnInputReady | lab3/server.c:345-377 | The completed lines go into the heap, the rest stays; an empty read leaves only the hang-up; no other connection changes. |
| Server.EventLoop.OnHangup | lab3/server.c:401-410 | The connection is closed and the limit falls by one; no other connection changes. |
| Server.EventLoop.Handle | lab3/server.c:309-411 | Dispatching one event in place takes exactly the transition system's step, and writes exactly what that step adds to the connection's stream. |
| Server.PrintAll | lab3/server.c:416-423 | Prints the heap's texts in ascending key order, each entry once, and leaves it empty. |
| Server.SortFiles | lab3/server.c:299-423 | The running server, on any possible sequence of events, writes to each connection exactly its file and the stop message, and prints the texts of all input lines as a permutation in ascending key order. |

## Left out

- Weak memory ordering and what a compiler may do with `volatile`: steps are sequentially consistent.
- Failing `kmalloc`, `malloc`, `mmap`, `kthread_run` and I/O calls, argument checking and error codes.
- Sockets, `epoll`, files, `printk`, `printf` and timing: byte channels, event choices and an abstract output stand for them.
- Freeing memory, `heap_destroy`, `heap_foreach`, and the format of the printed columns.
- Integer width, except for the sieve's index (`SieveResults.IntsFit`) and `line_len` at the end of the file; keys and `atoi` are unbounded.
- Client.SortLines: a stream without a number where one is expected is excluded, and so is a line that overflows the send buffer, because the program then uses an uninitialised key or writes outside its buffer.
- Session.RwObj.OnReadable: lines without a space or with a NUL are excluded, because `strncpy` drops what follows a NUL and the key is then uninitialised.
- Session.InsertString: a null text is written as a lone NUL, which no C string contains.
- Client.Stream.GetLine: promises only a capacity above the line's length, because the growth of the library's buffer is not part of this model.
- Session.RwObj.Compact: the overlapping `strncpy` is a forward copy to lower addresses, byte by byte.
- Heap.MinHeap.constructor: a page is exactly E entries, because the byte size of pages and entries is not part of this model.
- Server.EventLoop.OnConnection: the connections' objects are a growing sequence, and the table from descriptors to objects is left out.
- Server.EventLoop.Handle: one ready event at a time; a batch is a sequence of such events.
- In `Sorter` a client is its stream, its heap as a multiset and what it has yet to write; the step Write, which takes a part of one encoded line, is carried out by `Client.WriteAll`.
- Amortised cost of resizing: the shrink rule does not give a constant one from every state.
- The other studios and lab1, which are short system-call exercises.

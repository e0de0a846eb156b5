# Scheduling queue, CRC-32C, throttle, base64 and SI parsing

This project models five parts of the repository and proves what they promise.

- The weighted priority queue (prioritizedqueue.h) and its client, the dispatch queue. A strict tier and a token-bucket
  tier of sub-queues, each a map of per-class lists under a round-robin cursor. `SubQueueSpec` and `PrioritizedQueueSpec`
  give the value of the queue and what each operation does to it; `SubQueues` and `PrioritizedQueues` are the objects whose
  methods change their fields in place, each proved against them. `QueueOrder` states in terms of deques, heads and numbers
  what is served next, what an item is charged and what becomes of the tokens. `QueueRuns`, `RoundRobin`, `QueueTokens`,
  `QueueStarvation`, `QueueRivals`, `QueueStarvingRuns` and `QueueStarvationExact` prove the properties of whole runs, and
  `DispatchQueues` and `DispatchStarvation` those of the client.
- Five routines for CRC-32C (the polynomial of RFC 4960, Appendix B, as a raw state update): the byte table, slicing-by-8,
  the ARMv8 routine, the x86-64 kernel with three lanes, and the cached CRC of a scattered buffer. `Crc32c` defines the
  bit-level step Z that absorbs a zero byte, and proves that it is linear and bijective; `CrcTables` proves that every table
  holds a power of Z; each routine is then a loop proved to return the one function `Crc`.
- The throttle (throttle.cpp): `ThrottleSpec` is what one locked section of each call does, `Throttles` the object, and
  `ThrottleRuns` all interleavings of calls, first and later acquisitions of the lock, signals and spurious wakeups. The
  reading of the limit without the lock is a step of its own, so that it may be out of date when the lock is taken.
- Base64 (armor.cpp, RFC 4648 section 4, with the alphabet of section 5 when decoding): `ArmorSpec` and `Armors`.
- Strict integers in any base and SI-suffixed decimal integers (strtol.cpp): `StrictSi`.

Where a property does not hold of the code, the project says exactly when it does:

- While its head keeps waiting, the lowest weighted sub-queue is passed over without bound exactly if it cannot pay for its head
  already, its priority is not the greatest there is, and one of three holds: its head costs a full bucket; its priority is
  positive and its tokens can wrap around in 32 bits; or its priority is 0 and everything else can be gone before it can pay
  (`StarvationExactly`). Over the calls of the dispatch queue, a positive lowest priority is starved exactly by a message that is
  charged the full bucket of 16777216, which is one sent with that cost or more, unless it is the highest weighted priority, 63 if
  no negative priority is sent (`LargeMessagesStarve`, `LargeSendsStarve`); for priority 0 it depends on the queued messages of the
  same id (`StarvationOfMessages`).
- A distribution of tokens among priorities whose sum times their number is at most 2^32, as in the dispatch queue, fails to offer
  more than the cost exactly if a 32-bit product wraps (`DistributionExactly`).
- A queued waiter of the throttle is overtaken exactly by calls that read a limit of 0 without the lock (`OvertakingExactly`).
- atomic_add takes an int (trunk/include/sys/atomic_gcc.h:41-44), so that take with an amount whose low 32 bits read as
  negative lowers the counter without a signal, and a wakeup is lost (`TakeSafeExactly`).
- The counter of the throttle stops being the balance exactly at a call that reads a limit of 0 for a nonzero amount, or returns
  with an amount outside the range of an int (`ConservationExactly`, `ConservationFails`).
- ptr::append does not forget cached CRCs, so that the CRC of a buffer can be out of date (`AppendExactly`).
- encode_base64 allocates too little from 2^30 bytes on (`EncodeCapacityEnough`).
- uint64_t values from 2^63 on are refused without a suffix (`LargeUnsignedRefused`), and 0 with the suffixes T, P and E for types
  of 32 bits; all other products in range are accepted (`RefusedInRange`). The int parser refuses both ends of the
  range of an int (`StrictStrtol`).
- A negative dispatch priority becomes a weighted priority near 2^32, above all others (`DispatchQueues.Unsigned`).

Three of the files read for the model are not encoded as UTF-8 and are cited here instead of in the table below:

- trunk/src/common/buffer.cpp: `CrcCache.BufferCrc32` (2606-2634) proves that with sound caches the cached CRC of a scattered
  buffer is the CRC of the joined contents, whether a part is cached from the same initial value, from another one, or not at
  all, and that all caches stay sound although parts may share memory; `CrcCache.Ptr.CopyIn` (1070-1085) and
  `CrcCache.Ptr.Append` (1054-1060) state the new memory and, the latter by `CrcCache.AppendExactly`, exactly when the cache
  stays sound. `Armors.EncodeBase64` and `Armors.DecodeBase64` (2267-2290), with `ArmorSpec.EncodeCapacityEnough` and
  `ArmorSpec.DecodeCapacityExactly`, prove when the buffers they allocate are large enough: the former for fewer than 2^30
  bytes and no more, the latter for all texts of a length exactly if three times the length does not wrap.
- trunk/include/net/dispatch_queue.h: `DispatchQueues.DispatchQueue.QueueCode` (128-186) puts a connection event into the strict
  tier with priority 255 and class 0 unless the queue is stopped; the limits of the queue are at line 217.
- trunk/include/common/throttle.h: `ThrottleSpec.ShouldWait` is the test of lines 17-23; `ThrottleRuns.GrantExactly` and
  `ThrottleRuns.ReleaseExactly` state what it decides in terms of the counter, the limit and the amount alone.

armor.h declares armor_linebreak; the function defined is armor_line_break, and that one is modelled. The comments of the
x86-64 kernel name its tables by 1280, 640 and so on; their contents are the powers 1272, 632 and so on of their labels, as
the merge needs.

## Model

| member | source | states |
|---|---|---|
| Crc32c.ZXor | trunk/src/common/crc32_intel_baseline.c:96-101 | the step that absorbs a zero byte is linear: it maps a xor to the xor of the images |
| Crc32c.ZPowBijective | trunk/src/common/crc32_intel_baseline.c:96-101 | absorbing n zero bytes is a bijection of the 32-bit states, with an explicit inverse |
| Crc32c.CrcXor | trunk/src/common/crc32_intel_baseline.c:82-93 | the CRC of a xor of states and data is the xor of the CRCs |
| Crc32c.CrcZeros | trunk/src/common/crc32_intel_baseline.c:82-102 | absorbing a block of n zero bytes as data is the null-buffer step repeated n times |
| Crc32c.CrcConcatenation | trunk/src/common/crc32_sctp.c:406-423 | crc(s, a + b) is crc(crc(s, a), b), and also the CRC of a advanced over the length of b zero bytes, xored with the CRC of b from 0 |
| Crc32c.CrcInjectiveInState | trunk/src/common/crc32_intel_baseline.c:82-102 | for fixed data two initial states give the same CRC if and only if they are equal |
| Crc32c.CrcRebase | trunk/src/common/crc32_intel_baseline.c:82-102 | the CRC from one initial value is turned into that from another by one pass of the null-buffer loop over their xor |
| CrcMemory.BurstDetected | trunk/src/common/crc32_intel_baseline.c:82-93 | two messages that differ only within four consecutive bytes have the same CRC if and only if they are equal, whatever precedes and follows |
| CrcTables.ByteTableHolds | trunk/src/common/crc32_intel_baseline.c:8-73 | the byte table maps each of its power-of-two indices to the CRC step of that byte |
| CrcTables.TableLookup | trunk/src/common/crc32_sctp.c:9-295 | a table whose power-of-two entries are Z^n of their indices holds Z^n(i) at every index i below 256 |
| CrcTables.SliceTablesHold | trunk/src/common/crc32_sctp.c:9-295 | the tables o32 to o88 hold the powers 1 to 8 of the zero-byte step |
| CrcTables.MulTablesHold | trunk/src/common/crc32c_intel_fast_asm.S:321-666 | the tables mul_table_72, 152, 312, 632 and 1272 hold the powers of the zero-byte step that their names say |
| CrcTables.PowerIsProduct | trunk/src/common/crc32c_intel_fast_asm.S:321-666 | advancing a table by n more zero bytes is multiplying it by Z^n(1); used to reach the power 1272 |
| CrcBaseline.Crc32cIntelBaseline | trunk/src/common/crc32_intel_baseline.c:76-105 | both loops return the CRC of the buffer contents, a null pointer standing for zeros |
| CrcSctp.RoundIsCrc | trunk/src/common/crc32_sctp.c:316-349 | one round of eight table look-ups absorbs exactly the next eight bytes |
| CrcSctp.LowSlicesAgree | trunk/src/common/crc32_sctp.c:333-348 | the byte-wise (BIG_ENDIAN) and word-wise look-ups of a round agree |
| CrcSctp.AddBytesAgree | trunk/src/common/crc32_sctp.c:317-325 | the byte-wise and the word-wise xor of the first word of a round agree |
| CrcSctp.Slicing8 | trunk/src/common/crc32_sctp.c:297-354 | for every state, buffer, length, alignment offset and endianness branch the result is the byte-at-a-time CRC, so that it does not depend on the offset |
| CrcSctp.Slicing8Zero | trunk/src/common/crc32_sctp.c:356-403 | the variant without a buffer returns the CRC of that many zero bytes, for every offset |
| CrcSctp.Crc32cSctp | trunk/src/common/crc32_sctp.c:406-423 | the exported routine equals the byte-at-a-time CRC for data at every address and for the null pointer |
| CrcAarch64.TailBits | trunk/src/common/crc32_aarch64.c:21-29 | after the loop has left the length negative, its bits 4, 2 and 1 add up to exactly the bytes that remain |
| CrcAarch64.Crc32cAarch64 | trunk/src/common/crc32_aarch64.c:11-54 | the word steps and the bit-tested tail return the byte-at-a-time CRC for every 32-bit length, with data or a null pointer |
| CrcMerge.AddLaneIsPower | trunk/src/common/crc32c_intel_fast_asm.S:73-109 | four table look-ups of a lane CRC, shifted by 0, 8, 16 and 24 bits and xored into the last quadword, advance that lane by k + 8 zero bytes |
| CrcIntel.MergeIsPowers | trunk/src/common/crc32c_intel_fast_asm.S:71-113 | the merge yields the first lane advanced over two blocks, the second over one, and the third, xored |
| CrcIntel.ThreeBlocks | trunk/src/common/crc32c_intel_fast_asm.S:44-126 | the CRC of three consecutive blocks is that xor of the three separate CRCs |
| CrcIntel.CrcB3 | trunk/src/common/crc32c_intel_fast_asm.S:56-116 | one pass of the three-lane macro equals the byte-at-a-time CRC of the three blocks, for every block size whose two tables fit it |
| CrcIntel.CrcB3Repeat | trunk/src/common/crc32c_intel_fast_asm.S:49-126 | the looping expansion absorbs all whole 1920-byte groups and leaves fewer |
| CrcIntel.CrcB3Once | trunk/src/common/crc32c_intel_fast_asm.S:52-126 | the other expansions absorb one group of three blocks if it is there, and leave less than one |
| CrcIntel.Cascade | trunk/src/common/crc32c_intel_fast_asm.S:210-292 | the passes of 1920, 960, 480 and 240 bytes and the tail absorb exactly the length |
| CrcIntel.Tail | trunk/src/common/crc32c_intel_fast_asm.S:225-292 | the shifted-out bits of the length byte select 128, 64, 32, 16, 8, 4, 2 and 1 bytes and absorb exactly the remaining length |
| CrcIntel.LessThan8 | trunk/src/common/crc32c_intel_fast_asm.S:298-314 | an unaligned buffer of fewer than 8 bytes is absorbed exactly |
| CrcIntel.Crc32Iscsi00 | trunk/src/common/crc32c_intel_fast_asm.S:143-314 | the kernel, for every address and length, equals the byte-at-a-time CRC; it reads beyond the data only if the data does not end on a quadword |
| CrcIntelZero.MergeOfZeros | trunk/src/common/crc32c_intel_fast_zero_asm.S:73-113 | the merge without a last load: two lanes over zeros from 0 are 0, and the first is advanced over all three blocks |
| CrcIntelZero.CrcB3Zero | trunk/src/common/crc32c_intel_fast_zero_asm.S:56-116 | one pass of the macro on a register that holds 0 absorbs exactly the zero bytes of three blocks |
| CrcIntelZero.TailZero | trunk/src/common/crc32c_intel_fast_zero_asm.S:207-269 | the shifted-out bits of the length byte absorb exactly the remaining zero bytes |
| CrcIntelZero.Crc32IscsiZero00 | trunk/src/common/crc32c_intel_fast_zero_asm.S:142-277 | the zero kernel, by its own steps, returns what the byte-at-a-time CRC returns for that many zero bytes of data |
| CrcIntelFast.Crc32cIntelFast | trunk/src/common/crc32_intel_fast.c:9-35 | the split between kernel and byte loop consumes exactly len bytes and equals the byte-at-a-time CRC, for every address and every length below 2^31 |
| SubQueues.FilterListPairs | trunk/include/common/prioritizedqueue.h:14-33 | the backward erasing loop leaves exactly the pairs that do not satisfy f, in order, and counts the others |
| SubQueueSpec.KeptExact | trunk/include/common/prioritizedqueue.h:14-33 | each pair keeps its multiplicity if f rejects its item, and disappears otherwise |
| SubQueues.SubQueue.PutTokens | trunk/include/common/prioritizedqueue.h:66-73 | the new tokens are the 32-bit sum, or the limit of the sub-queue if that is less; nothing else changes |
| SubQueues.SubQueue.Enqueue | trunk/include/common/prioritizedqueue.h:87-97 | the pair is appended to its class list; the cursor moves only if it was at the end |
| SubQueues.SubQueue.EnqueueFront | trunk/include/common/prioritizedqueue.h:99-108 | the pair is put in front of its class list |
| SubQueues.SubQueue.TakeTokens | trunk/include/common/prioritizedqueue.h:75-85 | the new tokens are the old ones less the amount, or 0 if there were fewer; nothing else changes |
| SubQueues.SubQueue.FrontPair | trunk/include/common/prioritizedqueue.h:110-113 | the front of the list under the cursor is returned |
| SubQueues.SubQueue.PopFront | trunk/include/common/prioritizedqueue.h:115-133 | the front of the list under the cursor is removed, the list too if it becomes empty, and the cursor goes on cyclically |
| SubQueues.SubQueue.RemoveByFilter | trunk/include/common/prioritizedqueue.h:145-169 | one pass with erasures under the iterator leaves every list filtered, no empty list, the right size, and the cursor on the next remaining class |
| SubQueues.SubQueue.RemoveByClass | trunk/include/common/prioritizedqueue.h:171-197 | the class is removed, its items are put in front of out, if there is one, in queue order, and a cursor on it goes to the next class |
| SubQueueSpec.PopFrontValid | trunk/include/common/prioritizedqueue.h:115-133 | a pop keeps the representation invariant of a sub-queue and takes one item off its total |
| RoundRobin.PopApproaches | trunk/include/common/prioritizedqueue.h:115-133 | a pop that does not serve a class leaves its list alone and brings the cursor exactly one class nearer, even when it erases a class under the cursor |
| RoundRobin.ServedInTurn | trunk/include/common/prioritizedqueue.h:110-133 | with pops only, a class at cyclic distance d is served by the pop number d + 1 and by none before |
| RoundRobin.Fairness | trunk/include/common/prioritizedqueue.h:87-197 | in every run with arrivals and removals, the pops that pass a waiting class are at most its distance plus the classes opened ahead of it meanwhile |
| RoundRobin.AddDelays | trunk/include/common/prioritizedqueue.h:87-108 | an arrival moves a waiting class back by exactly one place if it opens a class ahead of it, and otherwise not at all |
| PrioritizedQueues.PrioritizedQueue.CreateQueue | trunk/include/common/prioritizedqueue.h:205-217 | a missing sub-queue is made, with the token limit, and its priority counted; a present one is returned unchanged |
| PrioritizedQueues.PrioritizedQueue.constructor | trunk/include/common/prioritizedqueue.h:239-240 | the queue starts empty, with its two limits and the invariant |
| PrioritizedQueues.PrioritizedQueue.RemoveQueue | trunk/include/common/prioritizedqueue.h:219-223 | the sub-queue and its share of the priority sum are removed |
| PrioritizedQueues.PrioritizedQueue.DistributeTokens | trunk/include/common/prioritizedqueue.h:225-236 | every weighted sub-queue gets its 32-bit share plus one; nothing happens when the priorities sum to 0 |
| PrioritizedQueues.PrioritizedQueue.Enqueue | trunk/include/common/prioritizedqueue.h:332-345 | the cost is brought between the minimum and the bucket size and the item appended to its deque; the invariant holds |
| PrioritizedQueues.PrioritizedQueue.EnqueueFront | trunk/include/common/prioritizedqueue.h:347-360 | the same in front of the deque |
| PrioritizedQueues.PrioritizedQueue.EnqueueStrictFront | trunk/include/common/prioritizedqueue.h:327-330 | the item is put in front of its strict deque; the invariant holds |
| PrioritizedQueueSpec.Clamp | trunk/include/common/prioritizedqueue.h:334-342 | a cost up to the minimum becomes the minimum, one from the bucket size on the bucket size, and one between both is unchanged; a minimum above the bucket size makes every cost the bucket size |
| QueueOrder.NewPair | trunk/include/common/prioritizedqueue.h:332-360 | a weighted enqueue puts the item at the asked-for end of its list with the allowed cost that is nearest to the one given |
| QueueOrder.StepPairs | trunk/include/common/prioritizedqueue.h:14-409 | no operation but a weighted enqueue brings a pair into the weighted tier or changes what a queued item is charged |
| PrioritizedQueues.PrioritizedQueue.EnqueueStrict | trunk/include/common/prioritizedqueue.h:322-325 | the item is appended to its strict deque; the invariant holds |
| PrioritizedQueues.PrioritizedQueue.Dequeue | trunk/include/common/prioritizedqueue.h:367-409 | the item comes from the highest strict sub-queue, else from the lowest weighted one whose head costs less than its tokens, else from the highest weighted one; the new state follows and keeps the invariant |
| QueueOrder.StrictFirst | trunk/include/common/prioritizedqueue.h:367-379 | a dequeue takes from a strict deque only if every strict deque of a higher priority is empty, and from a weighted deque only if every strict deque is; the tier it does not take from keeps everything, tokens included |
| QueueOrder.WeightedFirst | trunk/include/common/prioritizedqueue.h:381-408 | a dequeue takes from a weighted deque if and only if the strict tier is empty, the deque is the one under its cursor, and its priority is the lowest that can pay for its head, or the highest where none can |
| QueueOrder.TokensAfterDequeue | trunk/include/common/prioritizedqueue.h:225-236 | the tokens of every weighted sub-queue after a dequeue, in numbers: less the cost if it paid, plus its share of the cost among those left and one, in 32-bit arithmetic and up to the bucket size |
| QueueOrder.TokensOtherwise | trunk/include/common/prioritizedqueue.h:205-360 | every operation but a dequeue leaves the tokens of the sub-queues it leaves in place, and a new one starts with none |
| PrioritizedQueues.PrioritizedQueue.RemoveByFilter | trunk/include/common/prioritizedqueue.h:258-289 | all sub-queues are filtered, the emptied ones dropped, and the priority sum is again the sum of the keys |
| PrioritizedQueues.PrioritizedQueue.RemoveByClass | trunk/include/common/prioritizedqueue.h:291-320 | class k is removed everywhere; out, if there is one, becomes the strict items by descending priority, then the weighted ones by descending priority, each in FIFO order, then the old out |
| QueueOrder.ClassItemsInOrder | trunk/include/common/prioritizedqueue.h:291-320 | the items of a class that are given out stand in the order of their priorities: around the deque of any priority, all of the higher ones before it and all of the lower ones after it |
| PrioritizedQueues.PrioritizedQueue.Length | trunk/include/common/prioritizedqueue.h:242-256 | the total of all deque lengths, modulo 2^32 |
| PrioritizedQueueSpec.EnqueueNormalValid | trunk/include/common/prioritizedqueue.h:332-360 | a weighted enqueue at either end keeps the representation invariant |
| PrioritizedQueueSpec.DequeueValid | trunk/include/common/prioritizedqueue.h:367-409 | a dequeue keeps the representation invariant |
| PrioritizedQueueSpec.RemoveByFilterValid | trunk/include/common/prioritizedqueue.h:258-289 | filtering keeps the representation invariant |
| PrioritizedQueueSpec.RemoveByClassValid | trunk/include/common/prioritizedqueue.h:291-320 | removing a class keeps the representation invariant |
| QueueRuns.RunKeepsInvariant | trunk/include/common/prioritizedqueue.h:35-409 | every run of public operations from a state with the invariant keeps it and the two limits |
| QueueRuns.ReachableInvariant | trunk/include/common/prioritizedqueue.h:35-409 | in every reachable state the priority sum is the sum of the weighted keys, no sub-queue or list is empty, each size is the sum of its list lengths, each cursor is on a queued class, tokens and weighted costs are within the limits |
| QueueRuns.EnqueueStrictDeque | trunk/include/common/prioritizedqueue.h:322-330 | a strict enqueue changes one deque, at the end it is asked to, and no other deque |
| QueueRuns.EnqueueNormalDeque | trunk/include/common/prioritizedqueue.h:332-360 | a weighted enqueue changes one deque, at the end it is asked to, and no other deque |
| QueueRuns.DequeueDeque | trunk/include/common/prioritizedqueue.h:367-409 | a dequeue takes one item off the front of one deque and leaves all others alone |
| QueueRuns.RemoveByFilterDeque | trunk/include/common/prioritizedqueue.h:258-289 | filtering removes exactly the items that satisfy f from every deque and keeps the order of the rest |
| QueueRuns.RemoveByClassDeque | trunk/include/common/prioritizedqueue.h:291-320 | the deques of the class are emptied and all others left alone |
| QueueRuns.EnqueueSize | trunk/include/common/prioritizedqueue.h:242-256 | every enqueue adds one to the number of queued items |
| QueueRuns.DequeueSize | trunk/include/common/prioritizedqueue.h:242-256 | every dequeue takes one off the number of queued items |
| QueueRuns.ArrivalOrder | trunk/include/common/prioritizedqueue.h:322-409 | over every run, what was in a deque followed by what the run appends to it is what the run takes out of it followed by what is left |
| QueueRuns.ArrivalOrderKept | trunk/include/common/prioritizedqueue.h:258-409 | in every run that appends only, with any removals, what comes out of a deque and what is left in it are items that were there or were appended, each at most once and in arrival order |
| QueueTokens.DistributionBound | trunk/include/common/prioritizedqueue.h:225-236 | one distribution never offers more than the cost and one token per sub-queue in all, wrapping or not, and offers more than the cost if no 32-bit product wraps |
| QueueTokens.DistributionExactly | trunk/include/common/prioritizedqueue.h:225-236 | when the number of sub-queues times the sum of the priorities is at most 2^32, one distribution offers more than the cost if and only if no product wraps |
| QueueTokens.WrappedGrants | trunk/include/common/prioritizedqueue.h:234 | where a product wraps, the grants can sum to less than the cost: priority 2^31 and cost 2 |
| QueueTokens.PaidDequeueGain | trunk/include/common/prioritizedqueue.h:383-394 | a dequeue paid for with tokens debits exactly the cost and raises the tokens held in all by at most one per sub-queue, with or without wrap-around |
| QueueStarvation.PayingIsChosen | trunk/include/common/prioritizedqueue.h:381-396 | with an empty strict tier, the lowest weighted sub-queue is served as soon as it holds more tokens than its head costs |
| QueueStarvation.TakeElsewhere | trunk/include/common/prioritizedqueue.h:225-236 | each weighted dequeue that goes elsewhere brings the lowest sub-queue at least one token nearer to paying for its head, if its priority is positive, its head costs less than a full bucket and its tokens cannot wrap around |
| QueueStarvation.BypassBound | trunk/include/common/prioritizedqueue.h:381-408 | under these conditions, over every run in which the lowest sub-queue keeps its place and head, at most max(0, cost + 1 - tokens) weighted dequeues go elsewhere |
| QueueStarvation.RoomEnough | trunk/include/common/prioritizedqueue.h:66-73 | its tokens cannot wrap around if its head and one grant have room in 32 bits |
| QueueStarvation.StepKeepsHead | trunk/include/common/prioritizedqueue.h:87-197 | an operation that neither removes the waiting item nor puts one in front of it leaves the cursor of its sub-queue where it is and the same item under it |
| QueueRivals.StepRivals | trunk/include/common/prioritizedqueue.h:258-409 | an operation that spares the class and the rivals of the waiting head leaves all its rivals, but for one at most that a weighted dequeue takes |
| QueueRivals.ZeroBypassBound | trunk/include/common/prioritizedqueue.h:225-236 | priority 0 with more rivals than it lacks tokens is passed over at most max(0, cost + 1 - tokens) times in every run that keeps its head: every other weighted sub-queue left brings it one token a dequeue |
| QueueStarvingRuns.LoneRound | trunk/include/common/prioritizedqueue.h:332-409 | with p0 alone and unable to pay, the arrival and the dequeue of an item of a higher priority amount to one distribution to p0 |
| QueueStarvingRuns.RaiseByOne | trunk/include/common/prioritizedqueue.h:225-409 | four steps with one weighted dequeue raise the tokens of p0 by exactly one and leave it alone |
| QueueStarvingRuns.FullHeadForever | trunk/include/common/prioritizedqueue.h:381-408 | with a head that costs a full bucket, every round of one arrival of a higher priority and one dequeue passes p0 over, in every state |
| QueueStarvationExact.ToLone | trunk/include/common/prioritizedqueue.h:291-409 | removals of other classes and dequeues leave p0 alone, with the same head and unable to pay, if it has no more rivals than that allows |
| QueueStarvationExact.StarvationExactly | trunk/include/common/prioritizedqueue.h:225-409 | over all runs that keep the head where it is, the lowest sub-queue is passed over without bound if and only if it cannot pay already, has not the greatest priority there is, and its head costs a full bucket, or its priority is positive and its tokens can wrap around, or its priority is 0 and it can be alone before it can pay |
| QueueStarvationExact.ZeroPriorityStarvation | trunk/include/common/prioritizedqueue.h:227-230 | for priority 0 without an equal item of the same class elsewhere, and whatever else is queued, a bound exists if and only if it can already pay |
| DispatchQueues.DispatchQueue.Enqueue | trunk/src/net/dispatch_queue.cpp:47-61 | a message of priority 64 or more is last in the strict list of its priority and id, any other in the weighted one, charged with its cost brought between 65536 and 16777216 |
| DispatchQueues.MessageCharge | trunk/src/net/dispatch_queue.cpp:47-61 | in every run a weighted message that is always sent with one cost is charged, wherever it is queued, 65536 for a cost up to that, 16777216 for one from that on, and else the cost itself |
| DispatchQueues.StrictDelivery | trunk/src/net/dispatch_queue.cpp:126-132 | in every run of calls, while an item of a strict priority is queued, what is delivered next has at least its priority |
| DispatchQueues.DispatchQueue.DiscardQueue | trunk/src/net/dispatch_queue.cpp:188-200 | exactly the items of the id are removed, and returned by tier, priority and arrival |
| DispatchQueues.DispatchQueue.Entry | trunk/src/net/dispatch_queue.cpp:126-132 | one delivery takes the item the queue gives out |
| DispatchQueues.NothingWraps | trunk/include/common/prioritizedqueue.h:225-236 | with the limits of the dispatch queue, 16777216 and 65536, and no negative priority, no sum or product of the token accounting wraps, in any run, and the condition of DistributionExactly holds |
| DispatchStarvation.StarvationOfMessages | trunk/src/net/dispatch_queue.cpp:47-61 | in every reachable state and for every lowest weighted priority, over the runs of calls that keep the waiting message, with or without negative priorities, it is passed over without bound if and only if it cannot be paid for already, its priority is not the highest weighted one, and it is charged the full bucket, or has priority 0 and too few messages of its id in the other weighted sub-queues |
| DispatchStarvation.LargeMessagesStarve | trunk/src/net/dispatch_queue.cpp:47-61 | a positive lowest priority is starved without bound exactly if its head is charged the full bucket of 16777216 and its priority is not the highest weighted one, which is 63 unless negative priorities are sent |
| DispatchStarvation.LargeSendsStarve | trunk/src/net/dispatch_queue.cpp:47-61 | in terms of the cost given to enqueue: there is a bound for a message of a positive lowest priority if and only if its cost is below 16777216 or its priority is the highest weighted one |
| DispatchStarvation.CallsBeyond | trunk/src/net/dispatch_queue.cpp:47-200 | for a message charged the full bucket below the highest weighted priority, and for one of priority 0 that can be alone before it can be paid for, calls exist that pass it over any number of times while it keeps waiting |
| DispatchQueues.DequesDiffer | trunk/src/net/dispatch_queue.cpp:47-61 | different priorities or ids have different deques, in spite of the conversion of negative priorities to unsigned |
| DispatchQueues.DeliveredInOrder | trunk/src/net/dispatch_queue.cpp:47-61 | in every run from an empty queue, the delivered and queued items of one id and priority are sent items, each once and in the order sent, whatever their costs, the other traffic and the discards |
| DispatchQueues.SentInOrder | trunk/src/net/dispatch_queue.cpp:126-132 | without a discard of the id none is lost: those not yet delivered are the last ones sent |
| Throttles.Throttle.SetMax | trunk/src/common/throttle.cpp:18-31 | a changed limit is stored and the front waiter signalled first; an equal one changes nothing |
| Throttles.Throttle.WaitBegin | trunk/src/common/throttle.cpp:33-46 | the caller blocks, at the end of the list, if it should wait or anybody is queued |
| Throttles.Throttle.WaitEnd | trunk/src/common/throttle.cpp:44-59 | a thread that has the lock again is released only at the front and if it need not wait, and then signals the next; otherwise it waits again |
| Throttles.Throttle.WaitFor | trunk/src/common/throttle.cpp:61-75 | wait is a blocking call for nothing, skipped only if there is neither a limit nor a new one |
| Throttles.Throttle.Take | trunk/src/common/throttle.cpp:77-88 | take adds without waiting and returns the counter, or does nothing if there is no limit |
| Throttles.Throttle.Reset | trunk/src/common/throttle.cpp:154-164 | reset signals the front waiter and clears the counter |
| Throttles.Throttle.Get | trunk/src/common/throttle.cpp:90-111 | get on top of this, with its unlocked test, its change of the limit and its addition to the counter |
| Throttles.Throttle.GetOrFail | trunk/src/common/throttle.cpp:114-131 | get_or_fail is granted without the lock if there is no limit, else only if it need not wait and nobody is queued |
| Throttles.Throttle.Put | trunk/src/common/throttle.cpp:133-152 | put signals the front waiter and subtracts, and returns the counter |
| ThrottleRuns.GrantExactly | trunk/src/common/throttle.cpp:33-131 | with nobody queued, a get, wait or get_or_fail of c is granted if and only if the limit that counts, its own if it brings one, is 0, or c is above it or fits below it, and c is below it or the counter is not beyond it; its limit is stored in any case, and the counter grows exactly with a grant |
| ThrottleRuns.QueuedBehind | trunk/src/common/throttle.cpp:33-46 | behind others get and wait always wait, at the end, and get_or_fail fails; a limit they bring is stored and, if it is new, signals the front |
| ThrottleRuns.ReleaseExactly | trunk/src/common/throttle.cpp:44-59 | a waiter that has the lock again is released if and only if it is at the front and the same condition holds for its amount; the next one is signalled |
| ThrottleRuns.OtherCalls | trunk/src/common/throttle.cpp:77-164 | what take, put, reset and a change of the limit do to the counter, the limit and the front waiter, in numbers |
| ThrottleRuns.ReturnsAtOnce | trunk/src/common/throttle.cpp:61-139 | a call returns without the lock if and only if it is none of reset and the change of the limit, reads a limit of 0 and brings none |
| ThrottleRuns.GrantsWithin | trunk/src/common/throttle.cpp:90-131 | in every run with a fixed limit, after every grant of at most the limit the counter is within the limit, and more than the limit is granted only from a counter within it |
| ThrottleRuns.CounterWithin | trunk/src/common/throttle.cpp:61-164 | with a fixed positive limit, no take and no request above it, the counter is within the limit in every reachable state |
| ThrottleRuns.WakeupsKept | trunk/src/common/throttle.cpp:18-164 | in every interleaving a front waiter that need not wait has a wakeup pending, although only the front is ever signalled, and before the state changes, provided no take amount reads as a negative int |
| ThrottleRuns.QuiescentMeansFull | trunk/src/common/throttle.cpp:33-59 | from the start, whenever no waiter has a wakeup pending, the front waiter has to wait |
| ThrottleRuns.TakeSafeExactly | trunk/src/common/throttle.cpp:77-88 | take(c) can never lose a wakeup, in any reachable state, if and only if the low 32 bits of c read as a nonnegative int |
| ThrottleRuns.WakeupsSettle | trunk/src/common/throttle.cpp:44-59 | in whatever order the waiters run, and however many wakeups are spurious, once none is pending exactly the longest run of waiters from the front that fits has been released |
| ThrottleRuns.WakeupsEnd | trunk/src/common/throttle.cpp:44-56 | a run in which only woken waiters go on has at most two steps for each waiter and one for each pending wakeup |
| ThrottleRuns.ArrivalOrder | trunk/src/common/throttle.cpp:33-59 | the get and wait calls granted so far, followed by the waiters, are the calls in the order in which they got the lock, in every interleaving |
| ThrottleRuns.OvertakingExactly | trunk/src/common/throttle.cpp:61-131 | in every state with a queued waiter, a step grants a new get, wait or get_or_fail if and only if the call reads a limit of 0 before it takes the lock, and brings none of its own |
| ThrottleRuns.NoOvertaking | trunk/src/common/throttle.cpp:61-131 | in every run with a limit from the start that is never set to 0, no new get, wait or get_or_fail is granted while a waiter is queued |
| ThrottleRuns.Overtaken | trunk/src/common/throttle.cpp:116-119 | a reachable state in which get_or_fail is granted while an earlier get still waits: the limit has been set to 0 |
| ThrottleRuns.Conserved | trunk/src/common/throttle.cpp:77-164 | in every run in which no step loses an amount, the counter is what was granted and taken minus what was put since the last reset |
| ThrottleRuns.Conservation | trunk/src/common/throttle.cpp:77-164 | with a limit from the start that is never set to 0, and amounts that fit an int, the counter is what was granted and taken minus what was put since the last reset |
| ThrottleRuns.ConservationExactly | trunk/src/common/throttle.cpp:77-164 | in every reachable state in which the counter is that balance, it still is after a step if and only if the step does not read a limit of 0 for a nonzero amount, and does not return with an amount outside the range of an int |
| ThrottleRuns.ConservationFails | trunk/src/common/throttle.cpp:92-95 | from a limit of 10 that is set to 0 and back, a get in between and a put afterwards leave a counter of minus 5 |
| ArmorSpec.DecodeEncode | trunk/src/common/armor.cpp:11-33 | decode_bits undoes encode_bits for all 64 values, none of which is written as padding or a line break |
| ArmorSpec.QuadValue | trunk/src/common/armor.cpp:62-74 | read as numbers, the four sextets and the three bytes they encode are the same |
| ArmorSpec.CharactersOfArmored | trunk/src/common/armor.cpp:55-86 | every character of the text, in numbers: those of each group stand in the standard alphabet for the four sextets of its three bytes, zeros included, and padding stands for the bytes that do not exist |
| ArmorSpec.RoundTrip | trunk/src/common/armor.cpp:48-137 | unarmor of the output of armor_line_break succeeds and gives exactly the original bytes, for every byte string and every line width |
| ArmorSpec.TextRoundTrip | trunk/src/common/armor.cpp:48-137 | a text of whole groups in the standard alphabet without padding is accepted, and is what armor writes for its bytes |
| ArmorSpec.PlainTextAccepted | trunk/src/common/armor.cpp:117-124 | of the texts without line breaks and padding, unarmor accepts exactly those of whole groups in the two alphabets |
| ArmorSpec.AcceptedExactly | trunk/src/common/armor.cpp:103-137 | unarmor accepts a text, and writes certain bytes, if and only if it is a sequence of line breaks and whole groups, followed by nothing or by one padded group and anything at all, with these bytes |
| ArmorSpec.RejectedExactly | trunk/src/common/armor.cpp:103-137 | unarmor reports a text as malformed, after writing certain bytes, if and only if line breaks and whole groups of these bytes are followed by something that begins with neither |
| ArmorSpec.LengthOfArmored | trunk/src/common/armor.cpp:86-95 | the text has 4 characters for every 3 bytes or part of them, and its length divided by the width line breaks if the width is a positive multiple of 4, else none |
| ArmorSpec.BreaksInArmored | trunk/src/common/armor.cpp:88-93 | a character is a line break if and only if the width is a positive multiple of 4 and a full line precedes it |
| ArmorSpec.BreaksOnlyAdded | trunk/src/common/armor.cpp:88-93 | apart from the line breaks the text does not depend on the width |
| ArmorSpec.UrlTextDecodes | trunk/src/common/armor.cpp:26-29 | unarmor reads the URL-safe spelling of any text exactly as the text itself |
| ArmorSpec.UnarmoredLength | trunk/src/common/armor.cpp:103-137 | unarmor writes at most three bytes for every four characters |
| Armors.SetStrVal | trunk/src/common/armor.cpp:35-46 | one character is written if there is room, else -ERANGE is returned; the part already written is a prefix of the text |
| Armors.ArmorLineBreak | trunk/src/common/armor.cpp:48-96 | if the text fits it is written and its length returned; otherwise the part that fits is written and -ERANGE returned; nothing outside the two pointers changes |
| Armors.Armor | trunk/src/common/armor.cpp:98-101 | armor is armor_line_break without breaks |
| Armors.Unarmor | trunk/src/common/armor.cpp:103-137 | the decoded bytes are written as far as they fit; the result is -ERANGE if they do not fit, else -EINVAL for a malformed text, else their number; nothing else changes |
| StrictSi.DenotesIsStrtoll | trunk/src/common/strtol.cpp:8-46 | a text of white space, a sign or none, a prefix or none and digits denotes at most one number in a base, strtoll reads it to the end and returns it if it fits, and reads no other text to its end |
| StrictSi.StrictStrtoll | trunk/src/common/strtol.cpp:8-46 | for every base there is no error if and only if the text denotes a number in the range of a long long, which is then returned; otherwise 0, and an integer is reported as expected exactly if the base exists and no beginning of the text denotes a number |
| StrictSi.StrictStrtol | trunk/src/common/strtol.cpp:48-68 | for every base there is no error if and only if the text denotes a number strictly between INT_MIN and INT_MAX |
| StrictSi.ShiftedLimits | trunk/src/common/strtol.cpp:206-217 | comparing with the shifted limits of the type is comparing the shifted value with the limits, for all five types |
| StrictSi.StrictSiCast | trunk/src/common/strtol.cpp:139-220 | for every text that denotes v in the range of a long long, with nothing or B, K, M, G, T, P or E after it, there is no error if and only if v times 1, 1024, 1048576, 1073741824, 2^40, 2^50 or 2^60 is in the range of the type, and the last three letters are refused for 32 bits; the result is then that product; which error it is otherwise; and 0 with every error |
| StrictSi.StrictSistrtoll | trunk/src/common/strtol.cpp:228-231 | the same for uint64_t |
| StrictSi.GivenByBody | trunk/src/common/strtol.cpp:148-193 | a text gives a number and a factor, with the factors written out, if and only if they are those of its suffix and of the text before it |
| StrictSi.RefusedInRange | trunk/src/common/strtol.cpp:193-217 | a product in the range of the type is refused if and only if the number itself is beyond a long long, or it is 0 with a letter that 32 bits do not have |
| StrictSi.LargeUnsignedRefused | trunk/src/common/strtol.cpp:193 | no spelling without a suffix of a number from 2^63 on is accepted for uint64_t, although the type holds it |
| StrictSi.PrintedDenotes | trunk/src/common/strtol.cpp:13 | every integer is read back from its spelling in every base from 2 to 36, with letters of either case, and from its decimal spelling in base 0 |
| StrictSi.PrefixedDenotes | trunk/src/common/strtol.cpp:13 | in base 0 a leading 0 makes a number octal, and 0x or 0X hexadecimal, which base 16 allows as well |

## Left out

- CrcTables.SliceTablesHold: each table is given by its eight entries at the powers of two and extended by linearity; the other
  248 entries are not part of this model.
- CrcTables.MulTablesHold: the same for the five tables of the kernel.
- CrcTables.ByteTableHolds: the same for the byte table.
- CrcAarch64.Crc32cAarch64: the meaning of the processor's CRC instructions (`Crc32Q`, `Crc32D`, `Crc32W`, `Crc32B`) is a
  definition here, the bytes of the operand absorbed in memory order.
- CrcIntelFast.Crc32cIntelFast: lengths from 2^31 on. The unsigned length is passed as an int and the kernel computes with the
  whole 64-bit register, so that what it does is not determined by the source.
- CrcIntel.Crc32Iscsi00: registers, flags and the stack; the data flow and the branches are modelled. A load that reaches past the
  data sees arbitrary bytes.
- CPU probing and choose_crc32; the cached CRC calls the slicing routine.
- CrcCache.Ptr.CopyIn: the other writers that forget cached CRCs (zero), and the variants that ask not to.
- PrioritizedQueues.PrioritizedQueue.CreateQueue: the source returns a pointer into its table; here the tables hold sub-queues by
  value, as the source's maps do, and a method changes a copy and writes it back. The keys of classes are natural numbers.
- QueueTokens.DistributionExactly: more priorities than its condition allows, where rounding can make good for a product that
  wraps.
- QueueStarvationExact.StarvationExactly: a positive priority whose tokens can wrap around, and which has an item equal to its head
  and of the same class in another weighted sub-queue. In the dispatch queue the tokens cannot wrap around.
- DispatchQueues.DispatchQueue.Enqueue: the arrival record of the message and the signal to the delivery thread.
- DispatchQueues.DispatchQueue.Entry: the arrival record, delivery itself, threads, stop and shutdown, local delivery, get_max_age.
- DispatchQueues.DispatchQueue.DiscardQueue: the arrival records, the release of the throttle and of the messages.
- Throttles.Throttle.Get: the counter and `cur + c` are unbounded, so that a wrap of the 64-bit counter is not modelled;
  memory-model effects of the unlocked read of the limit; the destructor; a thread that throws while it waits.
- ThrottleRuns.ArrivalOrder: a thread of the throttle has at most one call at a time, and the lock is not taken recursively.
- Armors.ArmorLineBreak: the int that counts the output is unbounded, so that outputs of 2^31 bytes or more are not modelled. The
  buffers of input and output do not overlap. Shifts and masks of bytes are written as quotients and remainders.
- Armors.Unarmor: the same.
- StrictSi.StrictStrtoll: strtoll is a specified function in the C locale. Texts end at their first zero byte. The error is a kind,
  not its message.
- Floating-point parsing, intarith.h, byteorder.h, page handling and memory comparison.
- Messenger, connections, sockets, encoding of messages, files, locks, logging and configuration.

# qbus verification model

This project models the inter-process message bus *qbus*: the byte ring that carries its messages, the
queues on top of the ring, the lock and the barrier that guard them, and the bus that chains queues. It
proves that each layer does what the layer above needs, down to single bytes of the ring.

## The system

- **Ring** (`Bytes`, `Geometry`, `Layout`, `Messages`, `Regions`, `Trimming`, `Ring`, `Partition`). A queue is a ring of
  bytes. A message is one or two chunks, each a 24-byte header of six words followed by payload. A message
  that reaches the end of the ring goes on at its start; 24 bytes or fewer at the end are skipped. The writer
  walks over the free regions and the reader over the busy ones, knowing only the head, the tail, a count and
  the flags in the headers. `Geometry` says where a message lands as a function of the tail alone; the writer's
  and the reader's loops are both proved to follow it. `Trimming` has the regions of a smart queue, which are cut
  so that room is left for service messages. `Rings.Ring` is the shared buffer with a real byte
  array; its ghost field `cells` is the list of messages that the bytes stand for.
- **Queue of one reader** (`SimpleQueue`). `QState` is the first-in-first-out specification, `SimpleQueue` the
  object over a `Ring` that is proved against it, with the keep-alive push.
- **Queues of many readers** (`Broadcast`, `Outcomes`, `SharedQueue`, `Scattered`). `Broadcasts.State` is the log of all pushed messages
  together with the part that is still in the ring, and one record for each reader. Its steps are push, get, pop,
  attach, detach, join and leave; each is one critical section of the source. `Inv` is the invariant of the
  states that the allowed steps reach. `SharedQueues.Shared` has the fields in shared memory,
  `SharedQueues.Endpoint` the private fields of one process; every method is proved to be a step of the
  specification, and `Outcomes` says what each step comes to. A reader's record also remembers what it was given (`got`), which the theorems about delivery
  speak of.
- **Lock and barrier** (`Threads`, `Locker`, `Barrier`). A step function says what one guarded step of one
  thread does; it is run by any number of threads in any order. The objects carry the system of lock and threads as
  a ghost field, and each method is proved to be a step of it, or, for `Open`, a sequence of steps.
- **Bus** (`Bus`, `SharedBus`). A chain of queues that grows when a message does not fit in the newest one and
  shrinks when the oldest one is exhausted. A connector is represented by the abstract state `QState` of its
  queue.

Words are 32 bits wide and stored with the low byte first; where the source's arithmetic wraps around (the
counters of pushed and popped messages, the reference counter, the product that gives the next capacity, the
epoch and the numbers of the connectors, the 64-bit difference of the keep-alive limit) the model wraps as well.

Standing assumptions, as preconditions where they matter: a payload is not empty, a ring has fewer than
2^32 - 1 bytes, there are fewer than 2^32 subscribers, a `pop` of a smart queue follows a `get` that found
something (otherwise the source dereferences a null message), and the readers of one queue have different
identifiers. In a smart queue these are the source identifiers: two readers with the same one would each take the
other's DISCONNECT for their own.

## Main results

1. `Rings.Ring.MakeMessage`, `Rings.Ring.GetMessage`, `Rings.MessageShows`: what a reader finds is what the
   writer placed, at every offset, split or not; a failed or successful placement leaves the bytes of the messages
   in the ring alone; it succeeds exactly if the free regions have the capacity
   (`SimpleQueues.RoomIsFreeCapacity`).
2. `Partitions.OneOwner`, `Partitions.OneHole`: each byte of the ring is free, or in a chunk of one message, or in
   the one skipped hole, and never two of these.
3. `SimpleQueues.RunIsFifo`, `SimpleQueues.KeepAliveOnlyOld`: the queue of one reader is a FIFO over every run; a
   keep-alive push drops nothing but a run of the oldest, timed-out messages, and no more than needed.
4. `Broadcasts.StepKeepsInv`, `Broadcasts.EveryReaderGetsTheLog`, `Broadcasts.EveryCounterIsExact`,
   `Broadcasts.NextMessageStays`, `SharedQueues.CachedMessageStays`: in every interleaving each reader gets the
   messages meant for it since it came, once and in order, counters are exact, and nobody moves or removes what a
   reader has found.
5. `Broadcasts.StepKeepsInv` says more: a step keeps the invariant *exactly* if it is allowed, and four kinds of
   steps that the source does not prevent are not. The first is a push to a smart queue for which the regions at
   the tail and at the start of the ring are cut too short: the writer goes on to a third region, and the message
   stands where no reader ever looks for it (`Trimmings.TwoAreReadable`, `Trimmings.ScatteredIsLost`,
   `Broadcasts.SlotsInNumbers`). A reader that attaches to a plain queue while a message is still
   needed has its head at that message instead of its own first one when the next message is pushed
   (`Broadcasts.FirstMessageIsFound`, `Broadcasts.AttachWhenNoneNeeded`; the condition counts when the first message
   comes); a plain reader that goes with unread messages leaves them with counters that count a reader
   who is gone (`Broadcasts.DetachWhenAllRead`); and a smart reader that leaves while data that looks like its own DISCONNECT is
   waiting stops its drain there (`Broadcasts.LeaveExactly`). Each has a run of the real steps that shows it:
   `ScatteredRuns.DataIsLost`, `Broadcasts.AttachedTwice`, `Broadcasts.DetachedTooEarly`, `Broadcasts.LeftTooEarly`.
   `Outcomes.LeaveIsAlwaysRight`: where no data bears the reserved tag every leave is right, in every run.
6. `Lockers.Exclusion`, `Lockers.HolderStays`, `Lockers.NotOvertaken`, `Barriers.AllMayWait`, `Barriers.Conservation`,
   `Barriers.OpenServesAll`.
7. `Buses.RunIsFifo`, `Buses.GrowthIsBounded`, `Buses.AcceptsUpToTheLargest`, `Buses.ReachesTheMaximum`: the bus is
   one FIFO over every run, makes a bounded number of ever larger queues, and takes exactly what fits in the newest
   queue or in a new one of the largest capacity that it can reach. That this is the maximum of the specification is
   true exactly if at each capacity on the way the factor makes up for rounding and for the wrap-around of the 32-bit
   product, and the memory can be made. `Buses.GrowthMayWrap` is a new bus with a maximum of four billion bytes that
   refuses forty million.
8. `SimpleQueues.FirstAfterPush`: exactly when no keep-alive push has come between a `get` and its `pop` that drops the
   message shown; `SimpleQueues.StalePop` is a run in which one has, and the last message is never got.

## Model

| member | source | states |
|---|---|---|
| Bytes.WordRoundTrip | qbus/message.cpp:85-187 | a word that is stored in four bytes is the word that is loaded |
| Bytes.WordFrame | qbus/message.cpp:85-187 | the value of a header word depends on its own four bytes only |
| Layout.HeaderWord | qbus/message.h:69-84 | storing one word of a header changes that field of the header and no other |
| Layout.SetHeaderWord | qbus/message.cpp:130-187 | storing the tag or the counter in the first chunk gives the same message with that tag or counter; nothing else changes |
| Layout.ChunksInArc | qbus/message.h:143-170 | the bytes of a message's chunks are the bytes between the tails before and after it, without the hole at the end of the ring |
| Layout.MessageFrame | qbus/message.h:143-170 | a message stays as long as the bytes between its two tails stay |
| Layout.HoldsFrame | qbus/message.h:143-170 | the same for a run of messages in the ring |
| Layout.HoldsReplace | qbus/message.cpp:184-205 | changing one message in place leaves the messages before and behind it |
| Layout.HoldsPush | qbus/message.h:143-170 | a message placed at the tail follows the messages that are in the ring |
| Messages.Pack | qbus/message.cpp:231-253 | fills the chunks one after another, returns the packed size, sets HEAD exactly on the first and TAIL exactly on the last chunk and leaves every other byte |
| Messages.Unpack | qbus/message.cpp:260-266 | concatenates the payloads along the chain |
| Messages.ChainSize | qbus/message.cpp:281-302 | the total size is the total capacity and one header for each chunk |
| Messages.PackUnpack | qbus/message.cpp:231-284 | for any payload and any chunks whose capacities sum to its length, unpack after pack is the payload and the data size is its length |
| Messages.ClearHead | qbus/message.cpp:248-249 | clearing HEAD in the next chunk leaves the packed payload and the other headers |
| Regions.FreeWalk | qbus/queue.cpp:281-299 | the writer meets the region at the tail, then the one before the head, then an empty one: the walk ends |
| Regions.FreeIsUnused | qbus/queue.cpp:281-299 | a byte lies in a free region if and only if it is outside the busy arc from head to tail |
| Regions.RoomIsCapacity | qbus/message.h:143-155 | a message fits behind the tail if and only if its size is at most the summed static capacity of the free regions |
| Regions.EmptyRingRoom | qbus/message.h:56-62 | a payload fits an empty ring at every offset if and only if it and two headers are not larger than the capacity |
| Trimmings.NextRegion | qbus/queue.cpp:1052-1066 | each region of the writer's walk, trimmed or not, starts where the one before has ended and lies in the free part of the ring |
| Trimmings.FirstRegions | qbus/queue.cpp:1052-1066 | where the first three trimmed regions are and when they are not empty: a third one if and only if the second is cut but not to nothing |
| Trimmings.TwoInNumbers | qbus/queue.cpp:1056-1063 | what the first two trimmed regions can take |
| Trimmings.NothingTrimmed | qbus/queue.cpp:1055-1063 | with enough available the regions are those of the base class, and a message is taken if and only if it fits behind the tail |
| Trimmings.TwoAreReadable | qbus/message.h:143-170 | what the first two regions can take is placed at the offsets and with the sizes that the reader expects |
| Trimmings.ScatteredIsLost | qbus/message.h:185-209 | what they cannot take, but all regions can, has its last chunk where no busy region of a reader ever starts |
| Trimmings.NeverVisited | qbus/queue.cpp:307-325 | a reader whose bytes pass the end of the ring only ever looks at its head, at the start of the ring and at the tail |
| Rings.PlacingMeets | qbus/message.h:146-154 | one step of the writer: the next region is free and behind all chunks, or there is none and the message is refused |
| Rings.PlacingGoesOn | qbus/message.h:155-166 | a chunk made in the next region leaves the chunks before it and the messages of the ring |
| Rings.PlacingEnds | qbus/message.h:168-170 | the walk that places all bytes has made the chunks that the regions and the size determine, and the described end |
| Rings.PlaceChunks | qbus/message.h:143-167 | for any trimming: terminates, succeeds if and only if the size is at most the summed capacity of the regions, and leaves the bytes of the messages in the ring also when it fails after a header was written |
| Rings.PlaceMessage | qbus/message.h:134-171 | the chain of the placed message unpacks to the payload; what the first two regions can take stands at the tail as a message; unread bytes are stable |
| Rings.FollowStep | qbus/queue.cpp:307-325 | the reader's next busy region starts with the next chunk of the message or is the skipped hole |
| Rings.FindMessage | qbus/message.h:179-211 | visits exactly the chunks that the writer made, in order, stops at TAIL, never reads a missing HEAD |
| Rings.ChunkHeaders | qbus/message.h:198-210 | only the last chunk of a message has TAIL, and its capacity gives the end of the message |
| Rings.MessageShows | qbus/message.cpp:260-284 | the message object shows the source identifier, tag, stamp, size and bytes that were placed |
| Rings.ReadableAt | qbus/queue.cpp:307-325 | at the offset of any message in the ring a reader finds that message, with the shared tail behind it |
| Rings.RingTail | qbus/queue.cpp:281-299 | the tail is the head advanced by the busy bytes; full and empty at equal head and tail differ by the count |
| Rings.RingPush | qbus/queue.cpp:226-238 | moving the tail behind the placed message appends it to the ring |
| Rings.RingPop | qbus/queue.cpp:466-472 | moving the head to the message's end removes exactly the first message |
| Rings.RingSetRefs | qbus/message.cpp:184-205 | storing a reference counter changes the counter of one message in the ring |
| Rings.Ring.MakeMessage | qbus/message.h:134-171 | on every head, tail, count and amount available: succeeds if and only if the regions can take the message; keeps head, tail, count and every byte of the messages in the ring |
| Rings.Ring.GetMessage | qbus/message.h:179-211 | a reader with the head at message i finds message i |
| Rings.Ring.Commit | qbus/queue.cpp:230-236 | the ring holds one more message, or, if it is not at the tail, those it held before in front of a tail behind it |
| Rings.Ring.DropFirst | qbus/queue.cpp:466-472 | the ring holds all but its first message; the tail stays |
| Rings.Ring.SetCounter | qbus/message.cpp:184-205 | the counter of message i changes and nothing else |
| Partitions.OneCovers | qbus/queue.cpp:281-325 | each busy byte lies between the tails of exactly one message |
| Partitions.OneOwner | qbus/queue.cpp:281-325 | each byte of the ring belongs to exactly one of: the free regions, the chunks of one message, the hole that one message skipped |
| Partitions.OneHole | qbus/message.h:146-155 | no more than one message in the ring has skipped a hole; no message has more than two chunks |
| SimpleQueues.RoomIsFreeCapacity | qbus/message.h:143-170 | a push succeeds if and only if the size is at most the summed static capacity of the free regions |
| SimpleQueues.PushKeepsOk | qbus/queue.cpp:226-238 | a push keeps the messages within the capacity |
| SimpleQueues.PopKeepsOk | qbus/queue.cpp:466-472 | a pop keeps the layout and the tail |
| SimpleQueues.DropOldDrops | qbus/queue.cpp:252-270 | the loop drops a run of the oldest messages, as many as counted, each at most as young as the limit and dropped while there was no room; it stops at a younger one, at an empty queue or when there is room |
| SimpleQueues.KeepAliveOnlyOld | qbus/queue.cpp:247-273 | whatever a keep-alive push returns, the contents are a suffix of the former ones, plus the new message if it fits; each dropped message was idle for the timeout |
| SimpleQueues.LimitWraps | qbus/queue.cpp:252-254 | while the clock is below the keep-alive time the limit wraps around and every message is old enough |
| SimpleQueues.EarlyPushAccepts | qbus/queue.cpp:247-273 | then a push drops whatever it needs, however young, and accepts exactly what an empty ring with its head at the tail can take |
| SimpleQueues.StepIsFifo | qbus/queue.cpp:226-358 | one push, with or without keep-alive time, or one pop keeps the equation of the next row |
| SimpleQueues.RunIsFifo | qbus/queue.cpp:226-358 | over every run of pushes with and without keep-alive times and of pops, the popped and dropped messages followed by the rest are the former contents followed by the accepted messages |
| SimpleQueues.RunJoin | qbus/queue.cpp:226-358 | a run after another one accepts, removes and leaves what the joined run does |
| SimpleQueues.SimpleQueue.DoPush | qbus/queue.cpp:226-238 | is the enqueue of the specification; true exactly if there was room; bytes of unread messages stay |
| SimpleQueues.SimpleQueue.DropOldest | qbus/queue.cpp:255-269 | one round of the keep-alive loop: the oldest message goes exactly if there is one that is old enough |
| SimpleQueues.FirstAfterPush | qbus/queue.cpp:247-273 | after a push the message that get has shown is still the first one if and only if there is no keep-alive time, or room, or the message is younger than the limit |
| SimpleQueues.DescAfterPush | qbus/queue.cpp:331-358 | the cached chunks are those of the first message also when all messages were dropped and the new one has taken the very place |
| SimpleQueues.StalePop | qbus/queue.cpp:345-358 | a run from a new queue in which a push between get and pop drops the message shown; the pop removes nothing and counts one message less |
| SimpleQueues.SamePlaceOtherMessage | qbus/queue.cpp:345-358 | a run from a new queue in which the cached chunks are those of a message that get has not shown |
| SimpleQueues.SimpleQueue.PushAgain | qbus/queue.cpp:252-271 | the loop terminates and is the dropping and the push of the specification |
| SimpleQueues.SimpleQueue.Push | qbus/queue.cpp:247-273 | is the keep-alive push of the specification; says exactly when the message shown stays the first one |
| SimpleQueues.SimpleQueue.Get | qbus/queue.cpp:331-339 | shows the oldest message, or none if and only if the queue is empty |
| SimpleQueues.SimpleQueue.Pop | qbus/queue.cpp:345-358 | removes the oldest message, with or without a preceding get; it is the one that get has shown if that is still fresh |
| SimpleQueues.SimpleQueue.PopMessage | qbus/queue.cpp:466-472 | the head moves to the next message, the others stay |
| Broadcasts.Garbage | qbus/queue.cpp:626-640 | the length of the longest run of messages at the head with counter zero |
| Broadcasts.GarbageIsUnneeded | qbus/queue.cpp:617-642 | the collected messages are all popped by every reader |
| Broadcasts.CleanKeepsCore | qbus/queue.cpp:617-642 | collecting keeps the invariant and leaves a needed message first; works on a full ring |
| Broadcasts.PushKeepsInv | qbus/queue.cpp:651-660 | a push that succeeds or fails keeps counters, heads and layout in agreement |
| Broadcasts.SlotsInNumbers | qbus/queue.cpp:1052-1066 | what the first two regions of a smart queue can take, from free space, reserve, head and tail; and when a third region takes more |
| Broadcasts.NothingScattered | qbus/queue.cpp:1057-1063 | a plain queue, and a smart queue whose reserve exceeds its free space so that the difference wraps around, takes data if and only if there is room, and readably |
| Broadcasts.ReadableHasRoom | qbus/queue.cpp:1052-1066 | what the first two regions can take fits behind the messages of the ring |
| Broadcasts.DataPushIsPush | qbus/queue.cpp:1001-1010 | such data is pushed as in a queue without trimming |
| ScatteredRuns.DataIsLost | qbus/queue.cpp:1052-1066 | a run of allowed steps from a new smart queue of 1000 bytes, after which 470 bytes are placed at 900, 0 and 400 and no reader can find them |
| ScatteredRuns.ThirdRegion | qbus/queue.cpp:1052-1066 | the three regions of that state, although there is room for the message behind the tail |
| Broadcasts.HeadIsPos | qbus/queue.cpp:597-600 | the head of a reader that has something to read is the offset of its next message, private or common |
| Broadcasts.PopRefs | qbus/queue.cpp:677-683 | a pop takes one reference from one message and no other |
| Broadcasts.PopKeepsCore | qbus/queue.cpp:677-683 | a pop keeps the invariant for the popping reader and for every other one |
| Broadcasts.NewReader | qbus/queue.cpp:882-888 | a new reader fits in if and only if its head is the tail, or it has none and no message is needed |
| Broadcasts.FirstMessageIsFound | qbus/queue.cpp:597-600 | a reader without a head of its own finds its first message if and only if no message in the ring was needed when it was pushed |
| Broadcasts.AttachWhenNoneNeeded | qbus/queue.cpp:715-719 | attaching to a plain queue keeps the invariant, and the reader has its head at the message pushed next, if and only if no message in the ring is still needed |
| Broadcasts.AttachedTooEarly | qbus/queue.cpp:504-510 | otherwise the new reader has its head at an older message, at another offset than the one pushed for it |
| Broadcasts.AttachedTwice | qbus/queue.cpp:504-510 | a run from a new queue in which the second reader reads the wrong message |
| Broadcasts.DetachedTooEarly | qbus/queue.cpp:737-740 | a run from a new queue that ends with a message whose counter is one and no reader at all |
| Broadcasts.LeftTooEarly | qbus/queue.cpp:932-951 | a run from a new smart queue in which a reader leaves with its DISCONNECT unread |
| Broadcasts.RemoveReader | qbus/queue.cpp:737-740 | taking a reader out keeps the counters exact if and only if it has read everything |
| Broadcasts.DetachWhenAllRead | qbus/queue.cpp:737-740 | the destructor of a plain queue keeps the invariant if and only if the reader has read everything |
| Broadcasts.JoinKeepsInv | qbus/queue.cpp:882-888 | a join with its CONNECT message keeps the invariant; the new reader starts behind it |
| Broadcasts.AttemptsAreInVain | qbus/queue.cpp:967-977 | while the lock is kept, a service message that finds no room at the first attempt finds none at any other |
| Broadcasts.GoodbyeIsLast | qbus/queue.cpp:934-935 | the DISCONNECT message is the last of the log and the leaving reader still has to read it |
| Broadcasts.DrainReadsAll | qbus/queue.cpp:936-950 | the drain terminates at the reader's own DISCONNECT; the reader has then read everything if and only if there was no earlier one |
| Broadcasts.LeaveExactly | qbus/queue.cpp:932-951 | after a leave every counter is the number of remaining pending readers if and only if no DISCONNECT of its own was waiting for the reader |
| Broadcasts.SkipKeepsInv | qbus/queue.cpp:1017-1044 | the skipping terminates at the first message meant for the reader; what it passes is not meant for it and loses one reference |
| Broadcasts.StepKeepsInv | qbus/queue.cpp:617-683 | every step of every participant extends the log, and keeps the invariant if and only if it is not a push that needs a third region, an early attach, a late detach, or a leave with an own DISCONNECT waiting |
| Broadcasts.StartOfReader | qbus/queue.cpp:882-888 | a reader starts at the end of the log of the step with which it came, and no step changes that |
| Broadcasts.ReaderCame | qbus/queue.cpp:882-888 | every reader of a run came with one attach or join of the run and has stayed since |
| Broadcasts.EveryReaderGetsTheLog | qbus/queue.cpp:597-683 | in every run of allowed steps each reader has got the filtered part of the log from the step with which it came to its next message, once and in order, in a plain queue all of it, and reads on at the right offset |
| Broadcasts.EveryCounterIsExact | qbus/queue.cpp:617-683 | in every run of allowed steps the counter of each message in the ring is the number of readers that have not popped it, never below zero |
| Outcomes.PushOutcome | qbus/queue.cpp:226-238 | what nobody needs is collected; then the message is last in ring and log with the number of readers as its counter, or it is lost, or it is refused |
| Outcomes.PopOutcome | qbus/queue.cpp:677-683 | in both kinds of queue a reader gets its next message, goes on by one, gives back one reference of that message, and nothing else changes |
| Outcomes.NoPopOutcome | qbus/queue.cpp:345-358 | with nothing to read a pop changes nothing |
| Outcomes.GetOutcome | qbus/queue.cpp:1017-1044 | a get of a smart queue goes to the first message that is neither the reader's own nor a service message and gives back one reference of each one passed; in a plain queue it changes nothing |
| Outcomes.CleanOutcome | qbus/queue.cpp:617-642 | a collection takes exactly the messages before the first needed one out of the ring |
| Outcomes.AttachOutcome | qbus/queue.cpp:715-719 | one more subscriber without a head of its own, nothing else |
| Outcomes.DetachOutcome | qbus/queue.cpp:737-740 | one subscriber less, nothing else |
| Outcomes.JoinOutcome | qbus/queue.cpp:882-888 | CONNECT for the former subscribers and a reader with its head at the tail, if and only if a byte fits in the free regions |
| Outcomes.LeaveOutcome | qbus/queue.cpp:932-951 | DISCONNECT and one reader less, under the same condition; counters exact if and only if nothing unread has the reader's source, the reserved tag and the code of DISCONNECT |
| Outcomes.RoomIsFree | qbus/message.h:143-170 | there is room for exactly what the free regions can take |
| Outcomes.FilterJoin | qbus/queue.cpp:1024-1028 | the messages meant for a reader are chosen one by one, in order |
| Outcomes.LeaveIsAlwaysRight | qbus/queue.cpp:932-951 | in every run without data of the reserved tag every leave drains up to the reader's DISCONNECT, so that it has read everything, and keeps the counters of the others exact |
| Broadcasts.RunExtends | qbus/queue.cpp:617-683 | a run goes on with every allowed step |
| Broadcasts.NextMessageStays | qbus/queue.cpp:331-358 | no step of another participant changes or moves the message that a reader reads next |
| Broadcasts.ReaderStays | qbus/queue.cpp:597-683 | no step of another participant changes the private head and counter of a reader |
| SharedQueues.CachedMessageStays | qbus/queue.cpp:331-358 | whatever step another participant makes, a message cached by get is still the next one at pop and shows the same tag and bytes |
| SharedQueues.CountersDiffer | qbus/queue.cpp:607-610 | the unsigned difference of two wrapped counters is the number of messages between them |
| SharedQueues.CountIsPending | qbus/queue.cpp:607-610 | the count of a reader is the number of messages that it has not popped |
| SharedQueues.CollectedAll | qbus/queue.cpp:984-992 | collecting gives back the summed sizes of the collected messages |
| SharedQueues.AppendSizes | qbus/queue.cpp:1001-1010 | a push takes the size of its message from the free space, which never falls below zero |
| SharedQueues.PopSizes | qbus/queue.cpp:677-683 | a pop does not change the free space |
| SharedQueues.NextEnds | qbus/queue.cpp:677-683 | the end of a message modulo the capacity is the reader's next head |
| SharedQueues.SkipOne | qbus/queue.cpp:1024-1042 | one round of the skipping loop: own and service messages are popped, others end the loop |
| SharedQueues.DrainOne | qbus/queue.cpp:936-950 | one round of the draining loop: it goes on unless the message has the own source, the reserved tag and the code of DISCONNECT |
| SharedQueues.Kind | qbus/queue.cpp:1024-1028 | tells own and service messages from the header of the message |
| SharedQueues.IsOwnGoodbye | qbus/queue.cpp:942-944 | true if and only if the message has the own source, the reserved tag and the code of DISCONNECT as its first byte |
| SharedQueues.Shared.constructor | qbus/queue.cpp:518-526 | a new queue is the initial state; free space is the capacity |
| SharedQueues.Endpoint.Attach | qbus/queue.cpp:504-510 | a reader of a plain queue is attached as in the specification; the invariant holds afterwards if and only if no message is needed |
| SharedQueues.Endpoint.Subscribe | qbus/queue.cpp:715-719 | one more subscriber, the same step |
| SharedQueues.Endpoint.DropGarbage | qbus/queue.cpp:617-642 | the loop terminates and drops the maximal run of unneeded messages; works on a full ring; restores the caller's head and counter |
| SharedQueues.Endpoint.CleanMessages | qbus/queue.cpp:984-992 | is the collection of the specification; reports length and summed total size of what it has removed and gives the size back to the free space |
| SharedQueues.Endpoint.DoPush | qbus/queue.cpp:226-238 | collects, then places the message or refuses it: for data the data push of the specification, for a service message the push without trimming; unread bytes stay |
| SharedQueues.Endpoint.Place | qbus/queue.cpp:1001-1010 | computes what is available from free space and subscribers; what the first two regions can take is appended; what more than two take is lost; the rest is refused |
| SharedQueues.Endpoint.Enroll | qbus/queue.cpp:651-660 | the counter of the message is the number of subscribers, the shared counter goes up, the free space down by its size |
| SharedQueues.Endpoint.Finish | qbus/queue.cpp:226-238 | tag, tail and count follow; free space and in-ring sizes sum to the capacity |
| SharedQueues.Endpoint.Release | qbus/message.cpp:202-205 | one reference of the next message is given back; the counter does not underflow |
| SharedQueues.Endpoint.PopMessage | qbus/queue.cpp:677-683 | is the pop of the specification; the private head and counter follow |
| SharedQueues.Endpoint.GetMessage | qbus/queue.cpp:667-670 | shows the next message of this reader, whatever it is |
| SharedQueues.Endpoint.Push | qbus/queue.cpp:226-238 | a push of a reader is the data push of the specification; unless a third region is needed it leaves the message that the reader has cached |
| SharedQueues.Endpoint.Get | qbus/queue.cpp:331-339 | shows the next message of a plain reader, or none if and only if it has read everything |
| SharedQueues.Endpoint.Pop | qbus/queue.cpp:345-358 | pops the next message of a plain reader |
| SharedQueues.Endpoint.Detach | qbus/queue.cpp:737-740 | a plain reader goes as in the specification; the invariant holds afterwards if and only if it has read everything |
| SharedQueues.Endpoint.Join | qbus/queue.cpp:785-805 | a new reader of a smart queue with room for CONNECT is the join step of the specification |
| SharedQueues.Endpoint.Enter | qbus/queue.cpp:882-888 | one attempt: without room for CONNECT only a collection; else CONNECT, head at the tail, counter at the shared counter, one more subscriber |
| SharedQueues.Endpoint.Leave | qbus/queue.cpp:932-951 | one attempt: without room for DISCONNECT only a collection; else DISCONNECT, one subscriber less and the drain, which keeps the invariant if and only if no own DISCONNECT was waiting |
| SharedQueues.Endpoint.SignOff | qbus/queue.cpp:935-950 | once DISCONNECT is pushed: one subscriber less, then the drain; the whole is the leave step of the specification |
| SharedQueues.Endpoint.DrainGoodbye | qbus/queue.cpp:936-950 | the loop terminates and is the drain of the specification |
| SharedQueues.Endpoint.SmartGetMessage | qbus/queue.cpp:1017-1044 | the loop terminates and is the skip of the specification |
| SharedQueues.Endpoint.SmartGet | qbus/queue.cpp:331-339 | shows the next message that is meant for the reader of a smart queue |
| SharedQueues.Endpoint.SmartPop | qbus/queue.cpp:345-358 | pops the next message that is meant for the reader of a smart queue |
| Lockers.SharedLocker.TryBookLock | qbus/locker.cpp:35-44 | LS_SCOPED if and only if another writer is there, LS_NONE if and only if nobody is, LS_SHARABLE leaves the writer waiting; the sharers stay |
| Lockers.SharedLocker.CountSharable | qbus/locker.cpp:50-54 | the number of threads that share the lock; zero if and only if the waiting writer is in |
| Lockers.SharedLocker.TryLock | qbus/locker.cpp:60-69 | succeeds if and only if no thread holds, shares or has booked the lock; then the caller holds it alone |
| Lockers.SharedLocker.Unlock | qbus/locker.cpp:133-138 | is the unlocking or giving-up step of a writer; the assert holds; no writer is left and the sharers stay |
| Lockers.SharedLocker.TryLockSharable | qbus/locker.cpp:144-153 | succeeds if and only if no writer is there and the count is not exhausted; then the caller is added to the sharers |
| Lockers.SharedLocker.UnlockSharable | qbus/locker.cpp:194-199 | is the step of a sharer that goes; the assert holds; the other sharers and the writers stay |
| Lockers.StepKeepsInv | qbus/locker.cpp:35-199 | every guarded step of every thread keeps the fields equal to the numbers of holders and bookers |
| Lockers.OthersStay | qbus/locker.cpp:35-199 | a step of one thread leaves all other threads where they are |
| Lockers.HolderStays | qbus/locker.cpp:133-199 | in every run a holder goes on holding, alone or with others, until it unlocks itself |
| Lockers.BookerStays | qbus/locker.cpp:85-127 | in every run a booked writer stays booked until it finds no sharer or gives up |
| Lockers.ReachableInv | qbus/locker.cpp:35-199 | the same in every state that any number of threads reach in any order |
| Lockers.Exclusion | qbus/locker.cpp:35-199 | in every run an exclusive holder is the only holder, the sharable count is the number of sharers, and the asserts of both unlocks hold |
| Lockers.BookedStep | qbus/locker.cpp:74-94 | while a writer has booked nobody else enters, and the sharable count falls by one exactly when a sharer leaves |
| Lockers.NotOvertaken | qbus/locker.cpp:74-94 | over every run in which the writer stays booked, no new holder enters and it may enter exactly after as many departures as there were sharers |
| Barriers.SharedBarrier.Open | qbus/locker.cpp:319-328 | the loop terminates and is the run of the opener's steps; afterwards there is one token for each waiting thread |
| Barriers.SharedBarrier.CanKnock | qbus/locker.cpp:335-338 | the test of the loop: with the mutex free it passes if and only if there is no token and nobody is on the way out |
| Barriers.SharedBarrier.Knock | qbus/locker.cpp:339-340 | is the step that makes the thread one of those that wait, whatever the second counter is by then |
| Barriers.SharedBarrier.TryWait | qbus/locker.cpp:368 | a waiting thread passes if and only if there is a token, and always when the barrier has been opened for all |
| Barriers.SharedBarrier.Finish | qbus/locker.cpp:369-370 | is the step that counts the thread out; the second counter does not underflow |
| Barriers.StepKeepsInv | qbus/locker.cpp:319-371 | every step, also within the loop of open, keeps tokens, counters and threads in balance |
| Barriers.OthersStay | qbus/locker.cpp:319-371 | a step of one thread leaves all other threads where they are |
| Barriers.AllMayWait | qbus/locker.cpp:333-341 | any set of threads can come to wait at the same time, while nobody opens |
| Barriers.ReachableInv | qbus/locker.cpp:319-371 | the same in every state that any number of threads reach in any order |
| Barriers.Conservation | qbus/locker.cpp:319-371 | in every run tokens and woken threads make up the second counter, waiting and woken threads both counters, and no counter falls below zero |
| Barriers.OpenServesAll | qbus/locker.cpp:319-328 | when open is done there is one token for each thread that still waits |
| Buses.GrowKeepsOk | qbus/bus.cpp:126-138 | a new connector keeps numbers and capacities rising and the contents as they are |
| Buses.OutputKeepsOk | qbus/bus.cpp:334-337 | a push to the newest queue appends the message to the contents of the chain |
| Buses.InputKeepsOk | qbus/bus.cpp:380-383 | a pop from the oldest queue removes the first message of the contents of the chain |
| Buses.PushIsEnqueue | qbus/bus.cpp:207-221 | a push appends the message or leaves the contents, however many connectors it has added |
| Buses.PushGrowsForIt | qbus/bus.cpp:207-221 | a push adds empty queues only while the message does not fit, no more than needed, leaves the older ones, and puts the message to the newest |
| Buses.RefusedMeansFull | qbus/bus.cpp:207-221 | a refused message does not fit in the newest queue and no larger one can be made |
| Buses.CanAlwaysAdd | qbus/bus.cpp:115-149 | the numbers of the connectors never wrap or meet; an exhausted connector can be removed exactly if it is not the only one |
| Buses.AdvanceKeepsOk | qbus/bus.cpp:252-264 | removing exhausted connectors loses nothing, never empties the list, and finds the oldest message if there is one |
| Buses.PopIsDequeue | qbus/bus.cpp:289-303 | a pop removes the oldest message of the whole chain |
| Buses.AddsExactly | qbus/bus.cpp:94-107 | a connector is added if and only if the capacity is below the maximum, the factor makes up for rounding and wrap-around, and the memory can be made |
| Buses.AddedConnector | qbus/bus.cpp:94-107 | the new connector has the next number, is empty, and has the capacity of the product without its last two digits, wrapped or not, within the least and the largest capacity |
| Buses.ProductInNumbers | qbus/bus.cpp:99-99 | the 32-bit product in numbers, for any number of wraps |
| Buses.TriplesTheCapacity | qbus/bus.cpp:98-107 | a new bus with the factor 200 makes 3000 bytes after 1000 and takes 2500 |
| Buses.ProductIsLarger | qbus/bus.cpp:99-99 | the 32-bit product exceeds the capacity if and only if the surplus exceeds one hundred and what the wrap-around takes |
| Buses.AcceptsUpToTheLargest | qbus/bus.cpp:207-221 | a push succeeds if and only if the message fits in the newest queue or, when the bus can grow, in a new queue of the largest capacity that it can reach |
| Buses.ReachesTheMaximum | qbus/bus.cpp:86-109 | that capacity is the maximum of the specification if and only if the growth is stuck nowhere below it |
| Buses.SmallMaximumIsReached | qbus/bus.cpp:98-100 | a maximum below the wrap-around and a capacity above the rounding are enough |
| Buses.GrowthMayWrap | qbus/bus.cpp:98-107 | a new bus that doubles, has a maximum of four billion bytes and any memory, and refuses forty million bytes |
| Buses.RunIsFifo | qbus/bus.cpp:207-303 | over every run, the taken messages followed by the contents are the former contents followed by the accepted messages |
| Buses.RunJoin | qbus/bus.cpp:207-303 | a run after another one accepts, takes and leaves what the joined run does |
| Buses.GrowthIsBounded | qbus/bus.cpp:86-138 | over every run each connector is larger than all earlier ones, removed or not, so their number is bounded by the largest capacity; the list has exactly the numbers from input to output |
| SharedBuses.PopNow | qbus/bus.cpp:289-303 | a pop from the oldest queue, with nothing to pop, or after an exhausted connector has gone has the outcome of the pop of the bus |
| SharedBuses.GetNow | qbus/bus.cpp:252-264 | a get from the oldest queue, with nothing to get, or after an exhausted connector has gone has the outcome of the get of the bus |
| SharedBuses.Retried | qbus/bus.cpp:211-217 | a push before and after adding a connector has the same outcome |
| SharedBuses.SharedBus.Create | qbus/bus.cpp:48-56 | opens if and only if the bus is closed and a first connector of positive capacity can be made; the bus is then empty |
| SharedBuses.SharedBus.IsUpdated | qbus/bus.cpp:701-711 | tells whether the shared epoch has moved and takes it over |
| SharedBuses.SharedBus.UpdateConnectors | qbus/bus.cpp:717-747 | with one endpoint always US_NONE; the catching-up branches are unreachable |
| SharedBuses.SharedBus.AddConnector | qbus/bus.cpp:772-781 | adds the next connector or changes nothing; the local control block follows |
| SharedBuses.SharedBus.RemoveConnector | qbus/bus.cpp:788-797 | removes the oldest connector; the list does not become empty |
| SharedBuses.SharedBus.DoPush | qbus/bus.cpp:570-581 | writes the message once or not at all |
| SharedBuses.SharedBus.Push | qbus/bus.cpp:207-221 | is the push of the specification; the retry loop terminates; false if the bus is not open |
| SharedBuses.SharedBus.DoGet | qbus/bus.cpp:611-619 | the oldest message of the oldest queue |
| SharedBuses.SharedBus.Get | qbus/bus.cpp:252-264 | the oldest message of the bus, or none if and only if it is empty or not open |
| SharedBuses.SharedBus.DoPop | qbus/bus.cpp:642-650 | pops from the oldest queue |
| SharedBuses.SharedBus.Pop | qbus/bus.cpp:289-303 | removes the oldest message of the bus; false if and only if it is empty or not open |

## Left out

- `qbus/memory.cpp`, process identifiers, clocks and yields: source identifiers, time stamps and the success of making a shared memory are parameters.
- `shared_posix_locker` and `spinlock::try_lock`: foreign locks; the guards are taken as atomic.
- The loops of `lock`, `timed_lock`, `lock_sharable`, `knock` and `wait`: they repeat the modelled steps until one succeeds; fairness and progress in time are not stated.
- `shared_barrier::expect` with a timeout: after a timeout it lowers the second counter without taking a token, so the token equation does not hold for it.
- SharedQueues.Endpoint.Join: requires room for the CONNECT message. SharedQueues.Endpoint.Enter is one attempt of the loop; by Broadcasts.AttemptsAreInVain a caller whose first attempt fails never returns when there is no keep-alive time, since `base_safe_connector` keeps the exclusive lock while a queue is created, opened or freed and nobody can pop.
- SharedQueues.Endpoint.Push: the keep-alive loop is modelled for the queue of one reader only.
- Broadcasts.StepKeepsInv: a push of an empty payload and a pop with nothing to give do nothing; what readers make of the ring after a step that is not allowed is not followed any further. A message that is lost is not put into the log.
- SharedQueues.Endpoint.SmartPop: requires that a message for the reader is there unless nothing is; the source would use a null message.
- SimpleQueues.SimpleQueue.Pop: requires that the cached description is that of the first message; SimpleQueues.DescAfterPush says exactly when a keep-alive push between get and pop breaks this, and SimpleQueues.StalePop what the source does then.
- SimpleQueues.SimpleQueue.Push: the clock is read for each chunk, but the attempts of one push read the same times; a time before the timeout makes the limit wrap, as in the source, and SimpleQueues.EarlyPushAccepts says what happens then.
- Booked smart queues with a parent, and `unreadable_shared_queue`.
- `safe_connector::do_push` with nested locks, connector directions and timed retries: a push, pop, join or leave is one step, as the lock of `base_safe_connector` makes it.
- More than one endpoint of a bus, `do_open`, `base_safe_bus`: the source marks the catching-up with other endpoints as unfinished.
- SharedBuses.SharedBus.Push: connectors are values of `QState`, not `SimpleQueue` objects, and the keep-alive timeout of the bus is zero; the timed variants repeat the same step.
- SharedBuses.SharedBus.Create: does not model shared memory that is left from an earlier bus of the same name, which the source would open before it makes a new connector.
- Getters, printing, `timespec` operators, examples and the logger.

# Verification of the drone device library

A Dafny model of three parts of the library, with proofs of what they are for.

**The CAN transport (libcanard).** The pool, the linked TX queue, the list of reassembly states and their buffer chains are
one array of blocks with index links, as in the 32-bit layout: a block of 32 bytes, 6 payload bytes in a state, 28 in a
buffer block. Every C function is a method on that array. Its contract ties the new heap to a state machine on values
(`Reassembly`, `TxOrder`, `Frames`), and the results about whole runs (`Traffic`) are proved about that machine:

- a transfer that is sent is delivered exactly once, with its last frame, with exactly what was sent, however other senders'
  frames, cleanups and the node's own sending lie between its frames, and no other frame delivers anything as this sender's
  (`EndToEnd.DeliveredOnce`); so is any number of transfers one after the other (`EndToEnd.ChainDelivered`);
- a transfer with any one byte of its payload or its checksum changed on the bus is not delivered, and counts one error
  (`Damage.DamageIsRefused`);
- what is delivered and took several frames has the checksum that its first frame carried, with the signature, as long as no
  frame is misplaced (`Integrity.DeliveredIsChecked`);
- when a state is given up, which frames begin a transfer, continue it or are refused, and what each of them counts, is stated
  in microseconds, transfer numbers and counters (`Restarts`, `Receptions`);
- through both implementations, exact delivery holds for broadcasts, requests and responses (`CanHandler.BroadcastArrives`,
  `CanHandler.ServiceArrives`);
- no block is lost or owned twice in any run (`Canard.ListsPartitionPool`, `Traffic.RunConserves`);
- in a pool of at most 37 blocks, the assertions of the reassembly hold in all runs of full frames, and in any run they fail
  exactly when an end frame meets an exactly full last block; 38 blocks are too many (`ReassemblySafety`);
- scattered payloads read as flat ones, bit by bit, scalars survive encoding and decoding, and every bit of an encoded number
  is a bit of its two's complement (`Transfer`, `Scalar`, `ScalarWire`).

**The proxy master.** `ProxyModel` is the state machine of requests, responses, ticks and resets; the class `CanProxy` over the
ring queue, the pool and the arena-backed list takes its steps. Proved of every run: one outcome per request, complete
expiry by looking at the front only, an end of discovery, one notification per discovery, faithful field types. What callers
are told is stated by kind in results, positions and bytes (`ProxyAnswers`), that responses find their requests follows from
counting the messages (`ProxyNumbers`), and `ProxyDiscovery` has the attempts and answers of discovery in numbers.
`CanProxyHub` has the allocation of addresses.

**Bytes and checksums.** The table-driven CRCs equal the bitwise ones and detect every wrong byte; the configuration storage
restores what it stored and refuses what was changed or belongs to another type; the serial framing does not depend on chunking
and gives exactly the payloads with the right checksum; an upload has stored the file exactly if its chunks cover it; the
streaming digest is that of FIPS 180-4; the decryptor is the inverse cipher of FIPS 197, with tables and key schedule.

`Runs`, `Folds`, `KeyAlternation` and `BlockHash` hold the parts of the proofs that do not depend on what a step does. The
methods are cut smaller than the functions of the source where one contract would be too much at once; the order of the
statements is the one of the source. The verifier is invoked with `dafny verify dfyconfig.toml`.

One thing a reader would expect is false of the code: that a payload delivered from several frames always has the checksum its
first frame carried. There are two kinds of frames, called misplaced, after which it may not have: a first frame that does not
throw away what is stored (in time, no chain yet, the awaited number or the next), because the register has been seeded again
before the frame is looked at; and a later frame with a fitting number and toggle bit for a state that has stored nothing,
because nobody asks whether the transfer has begun. `Integrity.RepeatInput` and `Integrity.OrphanInput` are inputs;
`Integrity.CheckedExactly`, `Integrity.OrphanIsDelivered` and `Integrity.MisplacedFirst` say exactly when it goes wrong.

Where the source and its comments differ, the model follows the code:

- the comment at isPriorityHigher (DroneDevice/Libs/libcanard/canard.c:1050-1056) names the arguments the other way round;
- the time stamp of a delivered multi-frame transfer is the one of its last frame, not of its first;
- when the pool is exhausted while a transfer is enqueued, its first frames stay queued
  (DroneDevice/Libs/libcanard/canard.c:954);
- the assertion in the end-frame branch fails if the last buffer block is exactly full, which short middle frames can bring
  about (`ReassemblySafety.PartialFramesFail`).

## Model

| member | source | states |
|---|---|---|
| `CanHandler.BroadcastArrives` | DroneDevice/Include/DroneDevice/PlazCan/UavCanHandler.hpp:187-203 | from payload to payload through both pools: with room for the transfer and in-time stamps, a broadcast of up to 1023 bytes is seen exactly once, with its last frame, with exactly the payload, type, source, priority and transfer ID sent |
| `CanHandler.ServiceArrives` | DroneDevice/Include/DroneDevice/PlazCan/UavCanHandler.hpp:205-236 | the same for a request or a response, with its destination |
| `CanHandler.SendCanService` | DroneDevice/Include/DroneDevice/PlazCan/UavCanHandler.hpp:205-236 | exactly the frames of the transfer go out, in order, all blocks come back, and only a request moves the transfer ID on |
| `CanHandler.WriteTransfer` | DroneDevice/Include/DroneDevice/PlazCan/UavCanHandler.hpp:323-340 | the frames of one transfer in the queue go out as they were made, and every block comes back |
| `CanHandler.DeliverTransfer` | DroneDevice/Libs/libcanard/canard.c:260-504 | the frames of any valid transfer on a quiet bus are seen once, with the last one, as what was sent |
| `CanHandler.SendCanMessage` | DroneDevice/Include/DroneDevice/PlazCan/UavCanHandler.hpp:187-203 | exactly the frames of the transfer go out, in order, all blocks come back and the transfer ID moves on |
| `CanHandler.SameCount` | DroneDevice/Libs/libcanard/canard.c:891-900 | the number the sender uses next is the one the receiver then awaits |
| `CanHandler.EnqueuePackets` | DroneDevice/Include/DroneDevice/PlazCan/UavCanHandler.hpp:323-340 | the whole queue goes out in its order and every block comes back |
| `CanHandler.OnMessageReceived` | DroneDevice/Include/DroneDevice/PlazCan/UavCanHandler.hpp:151-166 | the receiver runs through the messages in order and the callback sees the deliveries of the run |
| `EndToEnd.DeliveredOnce` | DroneDevice/Libs/libcanard/canard.c:260-504 | a run mixes frames of any senders, cleanups and the node's own queueing; if the transfer's frames are in it, in order and in time, each finds its blocks, and no cleanup takes its state on the way, then the run delivers exactly one transfer of this sender, type, kind and destination: what was sent, with the last frame; and none at all if the checksum carried is not the one of signature and payload |
| `EndToEnd.ChainDelivered` | DroneDevice/Libs/libcanard/canard.c:260-504 | any number of transfers of one sender, one after the other in such a run: all that are intact are delivered, in order, each once, and nothing else of that sender, type, kind and destination is |
| `EndToEnd.ReceiverTells` | DroneDevice/Libs/libcanard/canard.c:276-288 | a delivery is of this sender, type, kind and destination exactly if the frame that caused it has the transfer's descriptor |
| `EndToEnd.QuietBusDelivers` | DroneDevice/Libs/libcanard/canard.c:260-504 | on a bus with nothing but the transfer, a pool with the blocks it needs is enough for that |
| `EndToEnd.QuietBusDeliveries` | DroneDevice/Libs/libcanard/canard.c:260-504 | frame by frame: nothing before the last frame, and with it the transfer, or nothing if it is not intact |
| `EndToEnd.OthersDoNotInterfere` | DroneDevice/Libs/libcanard/canard.c:276-288 | an event of another descriptor leaves the state of this one as it is, but for a cleanup, which takes it if it is stale |
| `EndToEnd.FirstFrame` | DroneDevice/Libs/libcanard/canard.c:387-411 | the first frame of a transfer brings a ready state to the stage after one frame |
| `EndToEnd.MiddleFrame` | DroneDevice/Libs/libcanard/canard.c:412-426 | every middle frame brings the state one stage on |
| `EndToEnd.LastFrame` | DroneDevice/Libs/libcanard/canard.c:427-502 | the end frame delivers what was sent and counts it, or, with a checksum that does not agree, delivers nothing and counts an error; it gives all blocks back and leaves the state expecting the next transfer ID |
| `EndToEnd.SingleFrame` | DroneDevice/Libs/libcanard/canard.c:351-371 | a transfer of at most 7 bytes is delivered by its only frame from any state; a ready state then expects the next transfer ID |
| `EndToEnd.CountedOnce` | DroneDevice/Libs/libcanard/canard.c:260-504 | the frames of a transfer, wherever they lie in a run, leave the statistics alone until the last one, which counts a reception or an error |
| `EndToEnd.QuietBusCounts` | DroneDevice/Libs/libcanard/canard.c:260-504 | on a quiet bus the statistics in the end are those of before with one reception more, or one error more |
| `Damage.SpoiledIsRefused` | DroneDevice/Libs/libcanard/canard.c:487-496 | a transfer whose checksum is not that of its payload, in order, in time and with room, mixed with anything: nothing of its sender, type, kind and destination is delivered, and its frames count exactly one error |
| `Damage.DamageIsRefused` | DroneDevice/Libs/libcanard/canard.c:487-496 | so for every transfer of several frames with any one byte of its checksum or its payload changed on the bus, whichever frame it is in |
| `Damage.QuietBusDamage` | DroneDevice/Libs/libcanard/canard.c:487-496 | the same on a quiet bus with explicit conditions: no delivery at all, and one error more |
| `Integrity.DeliveredIsChecked` | DroneDevice/Libs/libcanard/canard.c:316-504 | over every run from an empty state, with no misplaced frame of the descriptor: what a frame delivers that is not a whole transfer has, with the signature, the checksum that the last first frame before it carried, and that frame's transfer ID |
| `Integrity.CheckedExactly` | DroneDevice/Libs/libcanard/canard.c:487-496 | of whatever state delivers: the payload has the checksum the state keeps if and only if the register is that of the bytes stored |
| `Integrity.OrphanIsDelivered` | DroneDevice/Libs/libcanard/canard.c:324-504 | where that fails first: an idle state within its two seconds takes an end frame with a fitting number that nobody began, and delivers its bytes exactly if they lead from the register of the last transfer to its checksum |
| `Integrity.OrphanExists` | DroneDevice/Libs/libcanard/canard.c:324-504 | for every such state there are two bytes that do |
| `Integrity.MisplacedFirst` | DroneDevice/Libs/libcanard/canard.c:316-504 | where it fails second: a first frame that is refused has already seeded the register again; what is then delivered has the checksum if and only if what was stored leaves the register where it was |
| `Integrity.OrphanInput` | DroneDevice/Libs/libcanard/canard.c:324-504 | an input of the first kind: any transfer of eight bytes, then an end frame with the next number and no payload, which is reported as an empty transfer |
| `Integrity.RepeatInput` | DroneDevice/Libs/libcanard/canard.c:316-504 | an input of the second kind: a first frame that comes twice, and an end frame; four or more bytes are reported of which the carried checksum is not |
| `Runs.ServedOnce` | DroneDevice/Libs/libcanard/canard.c:260-504 | for any step relation whose stages are left alone by the others' events and moved on by one's own: in a whole interleaved run one's events cause what is expected with the last of them and nothing before, and the last stage is reached |
| `Runs.OneMarked` | DroneDevice/Libs/libcanard/canard.c:260-504 | if outputs tell whose event caused them, that output is the only one of its kind in the whole run |
| `TxOrder.InsertKeepsSorted` | DroneDevice/Libs/libcanard/canard.c:994-1038 | inserting keeps the queue sorted by priority |
| `TxOrder.InsertIsStable` | DroneDevice/Libs/libcanard/canard.c:994-1038 | a frame goes behind all frames of its rank, whose order stays |
| `TxOrder.PeekIsMaximal` | DroneDevice/Libs/libcanard/canard.c:244-251 | nothing in a sorted queue outranks its first frame |
| `TxOrder.StepKeepsSorted` | DroneDevice/Libs/libcanard/canard.c:244-258 | a push and a pop keep the queue sorted |
| `TxOrder.RunKeepsSorted` | DroneDevice/Libs/libcanard/canard.c:244-258 | so does every run of pushes and pops |
| `TxOrder.FramesLeaveInOrder` | DroneDevice/Libs/libcanard/canard.c:244-258 | in every run of pushes and pops, frames of one rank leave in the order in which they were pushed |
| `TxOrder.QueueOfOneTransfer` | DroneDevice/Libs/libcanard/canard.c:902-989 | the frames of one transfer are queued in the order in which they were made |
| `CanId.OutranksIsRankOrder` | DroneDevice/Libs/libcanard/canard.c:1057-1095 | isPriorityHigher on well-formed IDs is the strict order of a rank: a strict weak order |
| `CanId.EqualRank` | DroneDevice/Libs/libcanard/canard.c:1057-1095 | IDs that do not outrank each other are the same in all the compared fields |
| `CanId.MessageIdFields` | DroneDevice/Libs/libcanard/canard.c:160-190 | the ID of a message gives back its priority, type, source and transfer type |
| `CanId.AnonymousIdFields` | DroneDevice/Libs/libcanard/canard.c:160-185 | the ID of an anonymous message gives back its priority and the low bits of its type |
| `CanId.ServiceIdFields` | DroneDevice/Libs/libcanard/canard.c:215-232 | the ID of a service transfer gives back its priority, type, direction, source and destination |
| `CanId.Discriminator` | DroneDevice/Libs/libcanard/canard.c:180-183 | bits 10 to 23 of an anonymous identifier are bits 1 to 14 of the payload's checksum |
| `CanId.LowerIdFirst` | DroneDevice/Libs/libcanard/canard.c:1057-1095 | among extended data frames the lower identifier goes first, so the lower priority number |
| `CanId.SameBaseOrder` | DroneDevice/Libs/libcanard/canard.c:1057-1095 | a base frame goes before an extended one with the same leading bits, and a data frame before a remote one |
| `CanId.DescriptorInjective` | DroneDevice/Libs/libcanard/canard.c:50-52 | different type, kind, source or destination give different descriptors |
| `Frames.TailByteFields` | DroneDevice/Libs/libcanard/canard.c:54-59 | a tail byte gives back its three flags and the transfer ID |
| `Frames.OneFrame` | DroneDevice/Libs/libcanard/canard.c:902-928 | up to seven bytes go in one frame with both end bits, eight or more in at least two |
| `Frames.FullFrames` | DroneDevice/Libs/libcanard/canard.c:902-989 | a payload of 8 or more bytes takes (length + 2 + 6) / 7 frames, all full but the last, whose bytes before the tails are together the checksum and the payload |
| `Canard.ListsPartitionPool` | DroneDevice/Libs/libcanard/canard.c:1575-1625 | free list, TX queue, states and chains, each without repetition and disjoint, are together exactly the pool |
| `Canard.Instance.constructor` | DroneDevice/Libs/libcanard/canard.c:72-109 | all blocks are free, in order, and both lists are empty |
| `Canard.Instance.PoolAccounts` | DroneDevice/Libs/libcanard/canard.c:1575-1625 | free blocks and usage make up the pool, the usage is what states, chains and queue hold, and it never exceeds the peak, nor the peak the pool |
| `Canard.Instance.AllocateBlock` | DroneDevice/Libs/libcanard/canard.c:1594-1614 | the first free block, or NULL exactly when there is none; the lists stay linked |
| `Canard.Instance.FreeBlock` | DroneDevice/Libs/libcanard/canard.c:1616-1625 | the block in hand goes back, and nothing else changes |
| `Canard.Instance.PushTxQueue` | DroneDevice/Libs/libcanard/canard.c:994-1038 | the linked queue becomes the insertion of the frame into the old one |
| `Canard.Instance.PeekTxQueue` | DroneDevice/Libs/libcanard/canard.c:244-251 | the first frame, if there is one |
| `Canard.Instance.PopTxQueue` | DroneDevice/Libs/libcanard/canard.c:253-258 | the first frame leaves and its block comes back |
| `Canard.Instance.MakeFrame` | DroneDevice/Libs/libcanard/canard.c:930-983 | one turn of the frame loop makes exactly the next frame of the transfer |
| `Canard.Instance.EnqueueTxFrames` | DroneDevice/Libs/libcanard/canard.c:902-989 | the frames of the transfer are queued, as many as there are blocks for; the result counts them or tells exhaustion |
| `Canard.Instance.Broadcast` | DroneDevice/Libs/libcanard/canard.c:138-195 | which error for which arguments, with nothing changed; else the frames, the statistics and the next transfer ID |
| `Canard.Instance.RequestOrRespond` | DroneDevice/Libs/libcanard/canard.c:197-242 | the same for services; only a request moves the transfer ID on |
| `Canard.Instance.FindRxState` | DroneDevice/Libs/libcanard/canard.c:1187-1198 | the state with this descriptor, or NULL if there is none |
| `Canard.Instance.PrependRxState` | DroneDevice/Libs/libcanard/canard.c:1203-1230 | a fresh state at the front, or NULL exactly when no block is free |
| `Canard.Instance.TraverseRxStates` | DroneDevice/Libs/libcanard/canard.c:1156-1182 | the state is found, or made, or no block is free |
| `Canard.Instance.ReleaseStatePayload` | DroneDevice/Libs/libcanard/canard.c:1235-1249 | all blocks of the chain go back, and nothing else changes |
| `Canard.Instance.PushBytes` | DroneDevice/Libs/libcanard/canard.c:1254-1349 | the bytes go behind those stored exactly when the blocks they need are free; no other state changes |
| `Canard.Instance.HandleRxFrame` | DroneDevice/Libs/libcanard/canard.c:260-504 | every frame takes exactly the step of the state machine, the callback sees its delivery, and ok tells whether the source's assertions held |
| `Canard.Instance.HandleStart` | DroneDevice/Libs/libcanard/canard.c:289-317 | the part for a start frame: asking the application, finding or making the state, seeding the checksum |
| `Canard.Instance.HandleFollowing` | DroneDevice/Libs/libcanard/canard.c:318-326 | the part for any other frame |
| `Canard.Instance.ReceiveEnd` | DroneDevice/Libs/libcanard/canard.c:427-502 | the end frame: checksum, tail, delivery, and the blocks back |
| `Canard.Instance.ReceiveSingle` | DroneDevice/Libs/libcanard/canard.c:351-371 | the transfer in one frame |
| `Canard.Instance.ReceiveStart` | DroneDevice/Libs/libcanard/canard.c:387-411 | the first frame of several |
| `Canard.Instance.ReceivePart` | DroneDevice/Libs/libcanard/canard.c:373-504 | toggle and transfer ID checks, then start, middle or end |
| `Canard.Instance.Restart` | DroneDevice/Libs/libcanard/canard.c:324-349 | when a state starts anew, and what that changes |
| `Canard.Instance.CleanupStaleTransfers` | DroneDevice/Libs/libcanard/canard.c:506-542 | exactly the stale states go, the order of the others stays, every one of their blocks comes back and the statistics count them |
| `Canard.Instance.RemoveState` | DroneDevice/Libs/libcanard/canard.c:515-533 | the state leaves the list and all its blocks come back |
| `Reassembly.StepConserves` | DroneDevice/Libs/libcanard/canard.c:260-504 | a frame neither loses nor invents a block, and descriptors stay distinct |
| `Traffic.NextConserves` | DroneDevice/Libs/libcanard/canard.c:260-542 | nor does a cleanup, or a frame that goes into the TX queue or out of it |
| `Traffic.RunConserves` | DroneDevice/Libs/libcanard/canard.c:260-542 | nor does any run of these |
| `Reassembly.CleanupConserves` | DroneDevice/Libs/libcanard/canard.c:506-542 | nor does a cleanup |
| `Reassembly.SurvivorsAreFresh` | DroneDevice/Libs/libcanard/canard.c:506-542 | what a cleanup leaves is exactly what is not stale, and what it reclaims is what the others held |
| `Reassembly.SurvivorsInOrder` | DroneDevice/Libs/libcanard/canard.c:506-542 | the survivors keep their order |
| `Reassembly.SurvivorsDistinct` | DroneDevice/Libs/libcanard/canard.c:506-542 | descriptors stay distinct |
| `Restarts.KeptByAge` | DroneDevice/Libs/libcanard/canard.c:506-512 | in plain numbers: a cleanup keeps exactly the states with now - timestamp <= 2,000,000 |
| `Restarts.KeptAcrossWrap` | DroneDevice/Libs/libcanard/canard.c:506-512 | the same when the 64-bit clock has wrapped in between |
| `Restarts.CleanupCounts` | DroneDevice/Libs/libcanard/canard.c:506-542 | all blocks of the states older than that come back, and the counter of dropped transfers rises by the number of those with a chain, modulo 2^32 |
| `Restarts.LateFirstFrame` | DroneDevice/Libs/libcanard/canard.c:324-411 | a state silent for more than 2,000,000 us, a new one, one with a chain and one the transfer number is too far ahead of take any first frame as a beginning: exactly its bytes are stored, its checksum is awaited, and the old chain is free |
| `Restarts.IdleTakesFirst` | DroneDevice/Libs/libcanard/canard.c:331-341 | an idle state takes every first frame, except, within the 2,000,000 us, the one of the number right after the one it awaits |
| `Restarts.FirstIsRefused` | DroneDevice/Libs/libcanard/canard.c:331-385 | a state within its time and without a chain refuses a first frame out of turn: one error, and only the register is seeded again |
| `Restarts.AnewRestarts` | DroneDevice/Libs/libcanard/canard.c:324-341 | need_restart in plain numbers: never used, older than 2,000,000 us, or a first frame for a state with a chain, or of a number neither awaited nor next, modulo 32 |
| `Restarts.LateOtherFrame` | DroneDevice/Libs/libcanard/canard.c:336-349 | a later frame after that time: what is stored is gone, its chain is free, one error, and the number after this one is awaited |
| `Restarts.OutOfTurn` | DroneDevice/Libs/libcanard/canard.c:373-385 | within the time, a later frame with a wrong toggle bit or number changes nothing but the errors |
| `Restarts.RepeatIsRefused` | DroneDevice/Libs/libcanard/canard.c:373-385 | a middle frame that comes twice is taken once |
| `Restarts.RunKeepsSmall` | DroneDevice/Libs/libcanard/canard.c:260-504 | in every run the awaited numbers stay below 32 |
| `Receptions.UnsupportedCounts` | DroneDevice/Libs/libcanard/canard.c:269-277 | a base, remote, error or empty frame counts an error and does nothing else |
| `Receptions.OthersAreIgnored` | DroneDevice/Libs/libcanard/canard.c:293-320 | the start of an unwanted transfer, or the rest of one nobody began, changes nothing |
| `Receptions.NoBlockForState` | DroneDevice/Libs/libcanard/canard.c:300-307 | a wanted start that finds no block for its state is a dropped transfer |
| `Receptions.SingleTransfer` | DroneDevice/Libs/libcanard/canard.c:324-371 | a transfer in one frame is delivered whatever the state holds, which is given back, and which number is awaited next |
| `Receptions.ShortFirstFrame` | DroneDevice/Libs/libcanard/canard.c:389-394 | a first frame with nothing behind its checksum counts an error and leaves the state idle |
| `Receptions.DroppedForRoom` | DroneDevice/Libs/libcanard/canard.c:412-424 | a middle frame without a block for it: the transfer is dropped and counted, its chain is free, the next one is awaited |
| `ReassemblySafety.FullFramesAreSafe` | DroneDevice/Libs/libcanard/canard.c:324-504 | if every start and middle frame is full and the pool has at most 37 blocks, no run of frames, cleanups and queueing violates an assertion |
| `ReassemblySafety.SafePoolIsSharp` | DroneDevice/Libs/libcanard/canard.c:427-467 | 37 is the most: in a pool of 38 blocks a transfer of full frames wraps the length while it still fits, and its end frame violates the assertion |
| `ReassemblySafety.RunAssertsExactly` | DroneDevice/Libs/libcanard/canard.c:427-467 | in a pool of at most 37 blocks, for runs of any frames: all assertions hold if and only if no end frame meets an exactly full last block |
| `ReassemblySafety.AssertionsFailExactly` | DroneDevice/Libs/libcanard/canard.c:427-467 | in a laid-out state, the assertions fail exactly for an end frame that finds the last block exactly full |
| `ReassemblySafety.NeverSixModuloSeven` | DroneDevice/Libs/libcanard/canard.c:427-467 | with full frames the stored length modulo 7 is never 6, so the last block is never exactly full at an end frame |
| `ReassemblySafety.StepKeepsRegular` | DroneDevice/Libs/libcanard/canard.c:260-504 | every step with full frames keeps the states regular |
| `ReassemblySafety.NextKeepsRegular` | DroneDevice/Libs/libcanard/canard.c:260-542 | so do cleanups and the node's own queueing |
| `ReassemblySafety.StepKeepsLayout` | DroneDevice/Libs/libcanard/canard.c:260-504 | in a pool of at most 37 blocks, every step keeps the chain length that the stored length asks for |
| `ReassemblySafety.NextKeepsLayout` | DroneDevice/Libs/libcanard/canard.c:260-542 | so do cleanups and the node's own queueing |
| `ReassemblySafety.PartialFramesFail` | DroneDevice/Libs/libcanard/canard.c:427-467 | seven frames, some of them short, that a receiver with three free blocks accepts and whose end frame violates the assertion: without full frames the claim is false |
| `Storage.CopyInto` | DroneDevice/Libs/libcanard/canard.c:1254-1349 | the bytes copied into a block, and no others |
| `Storage.PieceInBlock` | DroneDevice/Libs/libcanard/canard.c:1310-1345 | a piece written into a block continues the flat contents |
| `Storage.PieceInHead` | DroneDevice/Libs/libcanard/canard.c:1268-1290 | a piece written into the head continues the flat contents |
| `Storage.BlocksNeeded` | DroneDevice/Libs/libcanard/canard.c:1292-1345 | how many blocks a push takes |
| `Storage.WholePayload` | DroneDevice/Libs/libcanard/canard.c:427-481 | head, chain and tail at delivery are the concatenation of all bytes stored and of the end frame |
| `Arena.ChainAt` | DroneDevice/Libs/libcanard/canard.c:1594-1625 | following the links from the head visits the list in order |
| `HeapOps.AllocOk` | DroneDevice/Libs/libcanard/canard.c:1594-1614 | taking the first free block keeps every list linked and every block owned once |
| `HeapOps.ReleaseOk` | DroneDevice/Libs/libcanard/canard.c:1616-1625 | giving a block back keeps them so |
| `HeapOps.LinkTxOk` | DroneDevice/Libs/libcanard/canard.c:994-1038 | the two writes of an insertion keep them so and insert the frame |
| `HeapOps.UnlinkTxOk` | DroneDevice/Libs/libcanard/canard.c:253-258 | unlinking the first keeps them so |
| `SlotOps.AttachOk` | DroneDevice/Libs/libcanard/canard.c:1292-1345 | appending a block to a chain keeps them so |
| `SlotOps.DetachOk` | DroneDevice/Libs/libcanard/canard.c:1235-1249 | taking the first block off a chain keeps them so |
| `SlotOps.PrependOk` | DroneDevice/Libs/libcanard/canard.c:1203-1215 | putting a state in front keeps them so |
| `SlotOps.RemoveOk` | DroneDevice/Libs/libcanard/canard.c:515-533 | taking a state out of the list keeps them so |
| `Bits.CopyBitArray` | DroneDevice/Libs/libcanard/canard.c:1365-1395 | every destination bit in range is its source bit, every other bit is unchanged, and the loop ends |
| `Transfer.DescatterScattered` | DroneDevice/Libs/libcanard/canard.c:1397-1498 | for a scattered payload: the bits of the flat payload from the offset on, as many as there are, with none of the assertions failing |
| `Transfer.Descatter` | DroneDevice/Libs/libcanard/canard.c:1397-1498 | the same for both forms of a payload |
| `Transfer.CopyFromPiece` | DroneDevice/Libs/libcanard/canard.c:1420-1490 | a piece of the payload contributes exactly its bits |
| `Scalar.EncodeScalar` | DroneDevice/Libs/libcanard/canard.c:705-782 | the bits written are the wire form of the value, at any bit offset, and no others change |
| `Scalar.DecodeScalar` | DroneDevice/Libs/libcanard/canard.c:544-703 | the value of the bits read, with sign extension, or the error |
| `Scalar.ScalarRoundTrip` | DroneDevice/Libs/libcanard/canard.c:544-782 | for every length from 1 to 64 (2 to 64 if signed), every offset and every value that fits, reading gives back what was written |
| `Scalar.PatternRoundTrip` | DroneDevice/Libs/libcanard/canard.c:640-703 | a value survives the masks, shifts and sign extension of its width |
| `ScalarWire.WireBit` | DroneDevice/Libs/libcanard/canard.c:705-782 | bit by bit: bit i of an encoded number is bit 8q + 7 - i % 8 of its two's complement for a complete byte q, and the bits that are left, the highest first, for the last one |
| `TransferCrc.CrcAdd` | DroneDevice/Libs/libcanard/canard.c:1563-1570 | crcAdd is the fold of crcAddByte over the bytes |
| `TransferCrc.CrcAddSignature` | DroneDevice/Libs/libcanard/canard.c:1554-1561 | the eight bytes of the signature, lowest first |
| `TransferCrc.CrcAddByte` | DroneDevice/Libs/libcanard/canard.c:1537-1552 | eight shifts with the polynomial 0x1021 |
| `TransferCrc.AddIsFold` | DroneDevice/Libs/libcanard/canard.c:1563-1570 | the recursion and the fold agree |
| `TransferCrc.AddConcat` | DroneDevice/Libs/libcanard/canard.c:1563-1570 | the checksum can be continued |
| `TransferCrc.SignatureInOrder` | DroneDevice/Libs/libcanard/canard.c:1554-1561 | the eight bytes that enter the register, put together with the lowest first, are the signature |
| `TransferCrc.StepInjective` | DroneDevice/Libs/libcanard/canard.c:1537-1552 | a step is injective in the register and in the byte |
| `TransferCrc.OneByteIsDetected` | DroneDevice/Libs/libcanard/canard.c:1563-1570 | changing any one byte changes the checksum |
| `Crc16.TwoBytesReach` | DroneDevice/Include/DroneDevice/Crc16.hpp:30-41 | but two bytes lead from every register to every other |
| `Proxies.CanProxy.constructor` | DroneDevice/Include/DroneDevice/PlazCan/CanProxy.hpp:36-82 | a new proxy is the start state of the state machine |
| `Proxies.CanProxy.Require` | DroneDevice/Include/DroneDevice/PlazCan/CanProxy.hpp:150-325 | a request is queued and sent, or refused to its caller at once |
| `Proxies.CanProxy.FindRequestDescriptor` | DroneDevice/Include/DroneDevice/PlazCan/CanProxy.hpp:587-602 | the first pending request of this service and transfer number |
| `Proxies.CanProxy.RetireFirst` | DroneDevice/Include/DroneDevice/PlazCan/CanProxy.hpp:662-730 | the first request leaves the list, its caller hears, its descriptor is free again |
| `Proxies.CanProxy.PurgeTimedOut` | DroneDevice/Include/DroneDevice/PlazCan/CanProxy.hpp:692-730 | what is told, what remains and when to wake up |
| `Proxies.CanProxy.PurgeAll` | DroneDevice/Include/DroneDevice/PlazCan/CanProxy.hpp:662-690 | every request is told that the device is gone |
| `Proxies.CanProxy.OnTimeoutOccurred` | DroneDevice/Include/DroneDevice/PlazCan/CanProxy.hpp:427-459 | a tick is the step of the state machine |
| `Proxies.CanProxy.ProcessServiceResponse` | DroneDevice/Include/DroneDevice/PlazCan/CanProxy.hpp:773-834 | a response is the step of the state machine, whatever its bytes are |
| `Proxies.CanProxy.ProcessFieldInfo` | DroneDevice/Include/DroneDevice/PlazCan/CanProxy.hpp:952-1047 | the type is stored at the next place, and the next field is asked for, or discovery ends |
| `Proxies.CanProxy.NodeInfoParts` | DroneDevice/Include/DroneDevice/PlazCan/CanProxy.hpp:877-950 | the four parts of a node information packet are all there |
| `Proxies.CanProxy.Assign` | DroneDevice/Include/DroneDevice/PlazCan/CanProxy.hpp:120-148 | a proxy that is assigned anew starts over, and its requests are settled |
| `ProxyProperties.StepOk` | DroneDevice/Include/DroneDevice/PlazCan/CanProxy.hpp:773-834 | every step keeps the pool bound, the field bound and the retry bound |
| `ProxyProperties.OneOutcomePerRequest` | DroneDevice/Include/DroneDevice/PlazCan/CanProxy.hpp:604-660 | in every run, every request with an observer has had exactly one callback or still waits for it |
| `ProxyProperties.DetachSettlesAll` | DroneDevice/Include/DroneDevice/PlazCan/CanProxy.hpp:662-690 | after a detach every request ever made has had its callback |
| `ProxyProperties.PacedRun` | DroneDevice/Include/DroneDevice/PlazCan/CanProxy.hpp:692-730 | with a monotone clock the pending list is always sorted by deadline |
| `ProxyProperties.FrontExpiryIsComplete` | DroneDevice/Include/DroneDevice/PlazCan/CanProxy.hpp:692-730 | on a sorted list, looking at the front removes exactly the overdue requests |
| `ProxyProperties.TickExpires` | DroneDevice/Include/DroneDevice/PlazCan/CanProxy.hpp:692-730 | after a tick exactly the requests with a deadline to come remain, and the wake-up time is no later than any of these |
| `ProxyProperties.AttemptProgresses` | DroneDevice/Include/DroneDevice/PlazCan/CanProxy.hpp:427-459 | every attempt of the discovery lowers its rank (phase, fields missing, retries) |
| `ProxyProperties.StepKeepsRank` | DroneDevice/Include/DroneDevice/PlazCan/CanProxy.hpp:427-459 | no step but a reset raises it |
| `ProxyProperties.DiscoveryTerminates` | DroneDevice/Include/DroneDevice/PlazCan/CanProxy.hpp:427-459 | no run holds more attempts than the rank, and after that many the device is idle or given up, for good |
| `ProxyProperties.ReadyOnce` | DroneDevice/Include/DroneDevice/PlazCan/CanProxy.hpp:773-791 | the hub hears that the device is ready exactly when IDLE is entered, at most once from one reset to the next |
| `ProxyProperties.TypesAreFaithful` | DroneDevice/Include/DroneDevice/PlazCan/CanProxy.hpp:952-1047 | type i is what was answered for field i, given distinct transfer numbers |
| `ProxyAnswers.FieldReadTells` | DroneDevice/Include/DroneDevice/PlazCan/CanProxy.hpp:1049-1085 | a field that was read is reported as exactly the bytes behind the status byte, with the field's type, for values of the 1, 2, 4 or 8 bytes of that type |
| `ProxyAnswers.FieldReadRoundTrip` | DroneDevice/Include/DroneDevice/PlazCan/CanProxy.hpp:150-185 | in any run: the field is asked for, the device answers, and the caller has exactly the value |
| `ProxyAnswers.FileReadTells` | DroneDevice/Include/DroneDevice/PlazCan/CanProxy.hpp:1160-1195 | a chunk of a file is reported with exactly its bytes and the position asked for |
| `ProxyAnswers.WriteTells` | DroneDevice/Include/DroneDevice/PlazCan/CanProxy.hpp:1087-1116 | a write is reported with the result of the device, and for a file the position |
| `ProxyAnswers.FileInfoTells` | DroneDevice/Include/DroneDevice/PlazCan/CanProxy.hpp:1118-1158 | the file information is reported as it came |
| `ProxyAnswers.FieldInfoTells` | DroneDevice/Include/DroneDevice/PlazCan/CanProxy.hpp:952-1047 | a field description is reported with its type, a refusal with its result |
| `ProxyAnswers.RefusalTells` | DroneDevice/Include/DroneDevice/PlazCan/CanProxy.hpp:1049-1221 | a response whose first byte is not 0 reports that byte and no data |
| `ProxyAnswers.WrongLengthTells` | DroneDevice/Include/DroneDevice/PlazCan/CanProxy.hpp:1049-1221 | a packet of the wrong length reports result 17 |
| `ProxyAnswers.TimeoutTells` | DroneDevice/Include/DroneDevice/PlazCan/CanProxy.hpp:692-730 | a request without an answer reports 10 for a field, 13 for a file, in order, before anything else |
| `ProxyAnswers.DetachTells` | DroneDevice/Include/DroneDevice/PlazCan/CanProxy.hpp:662-690 | a detach reports 1 to all |
| `ProxyAnswers.AskSends` | DroneDevice/Include/DroneDevice/PlazCan/CanProxy.hpp:150-325 | a request that is taken is sent with the next number and waits 100,000 us |
| `ProxyAnswers.AskRefuses` | DroneDevice/Include/DroneDevice/PlazCan/CanProxy.hpp:150-325 | one that is not reports 2, 17 or 14 |
| `ProxyNumbers.NumberAt` | DroneDevice/Include/DroneDevice/PlazCan/CanProxy.hpp:574-582 | over any run, the k-th message of a kind has the number k modulo 32 |
| `ProxyNumbers.NumbersSingleOut` | DroneDevice/Include/DroneDevice/PlazCan/CanProxy.hpp:587-602 | with at most 32 messages of a kind since none of it was waiting, no two waiting requests of that kind share a number |
| `ProxyDiscovery.StartsOver` | DroneDevice/Include/DroneDevice/PlazCan/CanProxy.hpp:120-148 | assigned anew: nothing known, eight retries, all counters at 0 |
| `ProxyDiscovery.NotItsTurn` | DroneDevice/Include/DroneDevice/PlazCan/CanProxy.hpp:427-459 | out of turn, or before its time, a tick only takes expired requests off |
| `ProxyDiscovery.AsksForNodeInfo` | DroneDevice/Include/DroneDevice/PlazCan/CanProxy.hpp:427-459 | an attempt asks for the node information and comes again 100,000 us later with one retry less |
| `ProxyDiscovery.AsksForField` | DroneDevice/Include/DroneDevice/PlazCan/CanProxy.hpp:427-459 | or for the next field, if there is a descriptor |
| `ProxyDiscovery.GivesUp` | DroneDevice/Include/DroneDevice/PlazCan/CanProxy.hpp:427-459 | without retries: error if the device never described itself, else ready with the fields there are |
| `ProxyDiscovery.NodeInfoLeads` | DroneDevice/Include/DroneDevice/PlazCan/CanProxy.hpp:877-950 | which packets are complete, and what follows: the first field, or ready |
| `ProxyDiscovery.FieldInfoLeads` | DroneDevice/Include/DroneDevice/PlazCan/CanProxy.hpp:952-1047 | a described field joins the others, and the next is asked for, or the device is ready |
| `ProxyDiscovery.NoMoreFields` | DroneDevice/Include/DroneDevice/PlazCan/CanProxy.hpp:952-1047 | result 2 ends the discovery; any other refusal leads nowhere |
| `ProxyDiscovery.SilentDevice` | DroneDevice/Include/DroneDevice/PlazCan/CanProxy.hpp:427-459 | a device that does not answer is asked eight times and given up at the ninth attempt |
| `LinkedList.List.constructor` | DroneDevice/Include/DroneDevice/List.hpp:32-45 | empty, every node free |
| `LinkedList.List.PushBack` | DroneDevice/Include/DroneDevice/List.hpp:72-91 | the value at the end; nodes in the list and free nodes stay a partition of the arena |
| `LinkedList.List.Erase` | DroneDevice/Include/DroneDevice/List.hpp:110-123 | the first occurrence leaves |
| `LinkedList.List.EraseNode` | DroneDevice/Include/DroneDevice/List.hpp:93-108 | the node leaves and the next one is returned |
| `LinkedList.List.EraseIf` | DroneDevice/Include/DroneDevice/List.hpp:149-169 | each value goes or stays as the predicate said, and those that stay keep their order |
| `LinkedList.CutLinked` | DroneDevice/Include/DroneDevice/List.hpp:93-108 | what unlinking leaves is the list without that node |
| `LinkedList.AppendLinked` | DroneDevice/Include/DroneDevice/List.hpp:72-91 | linking behind the last node appends |
| `RequestPool.Pool.constructor` | DroneDevice/Include/DroneDevice/RequestPool.hpp:23-31 | all slots wait |
| `RequestPool.Pool.Alloc` | DroneDevice/Include/DroneDevice/RequestPool.hpp:33-42 | the oldest waiting slot, or none |
| `RequestPool.Pool.Free` | DroneDevice/Include/DroneDevice/RequestPool.hpp:44-49 | a slot comes back |
| `RingQueue.Queue.Push` | DroneDevice/Include/DroneDevice/Queue.hpp:48-57 | the element behind the others |
| `RingQueue.Queue.Pop` | DroneDevice/Include/DroneDevice/Queue.hpp:83-92 | the oldest element |
| `RingQueue.Queue.PushAll` | DroneDevice/Include/DroneDevice/Queue.hpp:59-69 | as many as fit, in order |
| `RingQueue.Queue.PopAll` | DroneDevice/Include/DroneDevice/Queue.hpp:71-81 | as many as there are, in order |
| `CanProxyHub.OneIsFree` | DroneDevice/Include/DroneDevice/PlazCan/CanProxyHub.hpp:197-221 | by counting: if fewer addresses than first are taken, one of 1..first is free |
| `CanProxyHub.Hub.FindFreeAddress` | DroneDevice/Include/DroneDevice/PlazCan/CanProxyHub.hpp:197-221 | the preferred address if it is free, else the highest free one from first down; with fewer than first taken it is in 1..first |
| `CanProxyHub.Hub.AddressFree` | DroneDevice/Include/DroneDevice/PlazCan/CanProxyHub.hpp:351-360 | used by no proxy and no attached node |
| `CanProxyHub.Hub.AttachDevice` | DroneDevice/Include/DroneDevice/PlazCan/CanProxyHub.hpp:487-508 | a known device keeps its address; a new one gets a free address and, if there is one, a slot, and addresses stay unique |
| `CanProxyHub.Hub.ReadUid` | DroneDevice/Include/DroneDevice/PlazCan/CanProxy.hpp:912-918 | the identifier of the proxy becomes bytes 24 to 39 of the packet; those that a short packet lacks stay |
| `CanProxyHub.Hub.ProcessNodeStatus` | DroneDevice/Include/DroneDevice/PlazCan/CanProxyHub.hpp:455-485 | an unknown node takes a slot, if there is one |
| `CanProxyHub.Hub.Purge` | DroneDevice/Include/DroneDevice/PlazCan/CanProxyHub.hpp:127-154 | the first proxy with this identifier goes and its slot is vacant |
| `Crc8.Update` | DroneDevice/Include/DroneDevice/Crc8.hpp:30-49 | the bitwise checksum |
| `Crc8.FastUpdate` | DroneDevice/Include/DroneDevice/FastCrc8.hpp:67-73 | the table form equals the bitwise one, for every seed and buffer |
| `Crc8.AddConcat` | DroneDevice/Include/DroneDevice/Crc8.hpp:30-49 | the checksum can be continued |
| `Crc8.TableIs` | DroneDevice/Include/DroneDevice/FastCrc8.hpp:18-64 | every entry of the table is eight bitwise rounds |
| `Crc8.StepInjective` | DroneDevice/Include/DroneDevice/Crc8.hpp:30-49 | a step is injective in the register and in the byte |
| `Crc8.OneByteIsDetected` | DroneDevice/Include/DroneDevice/Crc8.hpp:30-49 | changing any one byte changes the checksum |
| `Crc16.Update` | DroneDevice/Include/DroneDevice/Crc16.hpp:30-41 | the bitwise checksum is the one of the CAN transport |
| `Crc16.FastUpdate` | DroneDevice/Include/DroneDevice/FastCrc16.hpp:66-71 | the table form equals the bitwise one, for every seed and buffer |
| `Crc16.TableIs` | DroneDevice/Include/DroneDevice/FastCrc16.hpp:18-62 | every entry of the table is eight bitwise rounds |
| `Crc32.Update` | DroneDevice/Include/DroneDevice/Crc32.hpp:30-52 | the bitwise checksum |
| `Crc32.FastUpdate` | DroneDevice/Include/DroneDevice/FastCrc32.hpp:100-108 | the table form equals the bitwise one, for every seed and buffer |
| `Crc32.TableIs` | DroneDevice/Include/DroneDevice/FastCrc32.hpp:20-96 | every entry of the table is eight bitwise rounds |
| `Crc32.SumConcat` | DroneDevice/Include/DroneDevice/Crc32.hpp:30-52 | the checksum can be continued |
| `Crc32.SumOfZero` | DroneDevice/Include/DroneDevice/Crc32.hpp:30-52 | the checksum of one zero byte is 0xD202EF8D |
| `Crc32.TypeHashIsSum` | DroneDevice/Include/DroneDevice/TypeHash.hpp:89-106 | the recursion at compile time gives the CRC-32 of the name from seed 0 |
| `Folds.FromBackIsFold` | DroneDevice/Include/DroneDevice/TypeHash.hpp:14-101 | a recursion from the last character is a fold from the first |
| `Crc32.StepInjective` | DroneDevice/Include/DroneDevice/Crc32.hpp:37-49 | a step is injective in the register and in the byte |
| `Crc32.OneByteIsDetected` | DroneDevice/Include/DroneDevice/Crc32.hpp:37-49 | changing any one byte changes the checksum |
| `Crc32.WordsApart` | DroneDevice/Include/DroneDevice/Crc32.hpp:37-49 | different words of four bytes give different checksums |
| `ConfigStorage.LoadAfterStore` | DroneDevice/Include/DroneDevice/ConfigStorage.hpp:97-136 | loading what was stored restores the sections up to the first that is not accepted, and succeeds exactly when all are |
| `ConfigStorage.StoreThenLoad` | DroneDevice/Include/DroneDevice/ConfigStorage.hpp:149-165 | load after store succeeds exactly when no section's checksum is 0xFFFFFFFF, and then restores every section |
| `ConfigStorage.OneByteCorruption` | DroneDevice/Include/DroneDevice/ConfigStorage.hpp:97-118 | with one byte of section k changed, load fails, the sections before k hold the stored values and the others what they were |
| `ConfigStorage.ChecksumCovers` | DroneDevice/Include/DroneDevice/ConfigStorage.hpp:97-118 | the checksum is the CRC-32 of the type hash, low byte first, and the padded value |
| `ConfigStorage.OtherTypeIsRefused` | DroneDevice/Include/DroneDevice/ConfigStorage.hpp:97-118 | what was stored as a section of one type is not accepted as one of another |
| `ConfigStorage.Aligned` | DroneDevice/Include/DroneDevice/ConfigStorage.hpp:97-136 | a section takes its size rounded up to whole words, with zero bytes added |
| `ConfigStorage.Flash.Write` | DroneDevice/Include/DroneDevice/ConfigStorage.hpp:120-136 | a write in place, or a failure |
| `ConfigStorage.Flash.Erase` | DroneDevice/Include/DroneDevice/ConfigStorage.hpp:154-165 | all cells erased, or a failure |
| `ConfigStorage.Storage.Load` | DroneDevice/Include/DroneDevice/ConfigStorage.hpp:149-152 | the shadow becomes what loading the flash gives |
| `ConfigStorage.Storage.Store` | DroneDevice/Include/DroneDevice/ConfigStorage.hpp:154-165 | on success the flash holds the image of the shadow |
| `SerialParser.ConsumeConcat` | DroneDevice/Include/DroneDevice/PayloadProtocol/SerialParser.hpp:78-133 | parser state and messages do not depend on how the bytes are chunked |
| `SerialParser.FramingRoundTrip` | DroneDevice/Include/DroneDevice/PayloadProtocol/SerialParser.hpp:37-133 | any packets with any last bytes, with any noise without 0x7E between them: exactly the payloads whose last byte is their checksum, in order |
| `SerialParser.PacketIsRead` | DroneDevice/Include/DroneDevice/PayloadProtocol/SerialParser.hpp:78-133 | a packet from an idle parser gives its payload and an idle parser |
| `SerialParser.SealedIsRead` | DroneDevice/Include/DroneDevice/PayloadProtocol/SerialParser.hpp:78-133 | a length, as many bytes and a last byte give the bytes if that is their CRC-8, and else ERROR_CHECKSUM and nothing |
| `SerialParser.DamageIsRefused` | DroneDevice/Include/DroneDevice/PayloadProtocol/SerialParser.hpp:117-123 | a packet with any one byte of its payload or its checksum changed gives nothing |
| `SerialParser.LengthIsRefused` | DroneDevice/Include/DroneDevice/PayloadProtocol/SerialParser.hpp:98-107 | a length above the limit is ERROR_LENGTH and gives nothing |
| `SerialParser.PacketLayout` | DroneDevice/Include/DroneDevice/PayloadProtocol/SerialParser.hpp:37-54 | 0x7E, the length less one, the payload, its CRC-8 |
| `SerialParser.NoiseIsSkipped` | DroneDevice/Include/DroneDevice/PayloadProtocol/SerialParser.hpp:92-96 | bytes other than 0x7E do nothing to an idle parser |
| `SerialParser.Parser.Create` | DroneDevice/Include/DroneDevice/PayloadProtocol/SerialParser.hpp:37-54 | the packet of the payload in front of the buffer, the rest of which stays; nothing for an empty payload, or one longer than the buffer |
| `SerialParser.Parser.Update` | DroneDevice/Include/DroneDevice/PayloadProtocol/SerialParser.hpp:78-133 | stops behind the first finished message; state and count are those of the byte-wise machine |
| `SerialParser.HandleData` | DroneDevice/Include/DroneDevice/PayloadProtocol/SerialHandler.hpp:164-179 | the loop ends and hands over the messages of the whole input, in order |
| `MemoryFile.StoredIsPrefix` | DroneDevice/Include/DroneDevice/InternalDevice/MemoryFile.hpp:85-136 | under any loss, repetition and order of a file's chunks, what is stored is a prefix of the file |
| `MemoryFile.FullLengthIsFile` | DroneDevice/Include/DroneDevice/InternalDevice/MemoryFile.hpp:85-136 | so a stored file of full length is the file |
| `MemoryFile.ChunkExtends` | DroneDevice/Include/DroneDevice/InternalDevice/MemoryFile.hpp:85-106 | what a chunk that continues the stored bytes leaves: its end is the new length, every new byte is at its offset, the old ones stay |
| `MemoryFile.StoredExactlyIfCovered` | DroneDevice/Include/DroneDevice/InternalDevice/MemoryFile.hpp:85-136 | after the last restart, the file is stored if and only if some of the chunks, in their order, cover it from 0 without gaps, whatever is repeated or lies between them |
| `MemoryFile.MemoryFile.WriteChunk` | DroneDevice/Include/DroneDevice/InternalDevice/MemoryFile.hpp:85-106 | a chunk that reaches from the stored part past its end keeps the old bytes and puts its own behind them, at their offsets; one that leaves a gap is accepted and dropped |
| `MemoryFile.MemoryFile.RestartWrite` | DroneDevice/Include/DroneDevice/InternalDevice/MemoryFile.hpp:110-121 | an empty file that is not finalized |
| `MemoryFile.MemoryFile.FinalizeWrite` | DroneDevice/Include/DroneDevice/InternalDevice/MemoryFile.hpp:124-136 | succeeds exactly for the stored size |
| `MemoryFile.MemoryFile.Upload` | DroneDevice/Include/DroneDevice/InternalDevice/MemoryFile.hpp:85-136 | an upload that finalizes at the length of the file succeeds exactly if the file is stored, and, without a restart, exactly if its chunks complete it |
| `MemoryFile.MemoryFile.ReadChunk` | DroneDevice/Include/DroneDevice/InternalDevice/MemoryFile.hpp:42-56 | the bytes from the offset, at most as many as asked for |
| `MemoryFile.MemoryFile.GetChecksum` | DroneDevice/Include/DroneDevice/InternalDevice/MemoryFile.hpp:27-30 | the CRC-32 of what is stored |
| `Sha256Constants.TableIsCubeRoots` | DroneDevice/Include/DroneDevice/Sha256.hpp:107-121 | the round constants are the fractions of the cube roots of the first 64 primes (section 4.2.2 of FIPS 180-4) |
| `Sha256Constants.InitialIsSquareRoots` | DroneDevice/Include/DroneDevice/Sha256.hpp:23-35 | the initial value, from which the digest starts, comes from the square roots of the first eight primes (section 5.3.3) |
| `Sha256Words.Ep0` | DroneDevice/Include/DroneDevice/Sha256.hpp:147-151 | the shifts are the rotations of section 4.1.2 |
| `Sha256Words.Ep1` | DroneDevice/Include/DroneDevice/Sha256.hpp:153-157 | the shifts are the rotations of section 4.1.2 |
| `Sha256Words.Sig0` | DroneDevice/Include/DroneDevice/Sha256.hpp:159-163 | the shifts are the rotations of section 4.1.2 |
| `Sha256Words.Sig1` | DroneDevice/Include/DroneDevice/Sha256.hpp:165-169 | the shifts are the rotations of section 4.1.2 |
| `Sha256Words.WordOfBytes` | DroneDevice/Include/DroneDevice/Sha256.hpp:86-96 | the four bytes of a word, read as in the schedule, are the word |
| `Sha256Words.ChTakesY` | DroneDevice/Include/DroneDevice/Sha256.hpp:137-140 | Ch takes the bits of y where x is one |
| `Sha256Words.ChTakesZ` | DroneDevice/Include/DroneDevice/Sha256.hpp:137-140 | and those of z where it is zero |
| `Sha256Words.MajCounts` | DroneDevice/Include/DroneDevice/Sha256.hpp:142-145 | Maj is one where two of the three are |
| `Sha256Example.ScheduleOfAbc` | DroneDevice/Include/DroneDevice/Sha256.hpp:175-181 | the example "abc": words 16 to 19 of its schedule |
| `Sha256Example.RoundsOfAbc` | DroneDevice/Include/DroneDevice/Sha256.hpp:183-203 | and its working variables after two rounds |
| `Sha256Example.PaddedAbc` | DroneDevice/Include/DroneDevice/Sha256.hpp:53-84 | and its padded block |
| `Sha256Example.TwoBlocks` | DroneDevice/Include/DroneDevice/Sha256.hpp:37-51 | blocks are taken in their order |
| `BlockHash.LeastZeros` | DroneDevice/Include/DroneDevice/Sha256.hpp:53-73 | the padding has the least number of zero bits that leaves room for the length (section 5.1.1) |
| `BlockHash.LengthValue` | DroneDevice/Include/DroneDevice/Sha256.hpp:75-83 | the length can be read back from its 64 bits |
| `BlockHash.PadInjective` | DroneDevice/Include/DroneDevice/Sha256.hpp:53-84 | different messages are padded differently |
| `BlockHash.ShortPadding` | DroneDevice/Include/DroneDevice/Sha256.hpp:58-63 | a rest below 56 bytes is closed in one block |
| `BlockHash.LongPadding` | DroneDevice/Include/DroneDevice/Sha256.hpp:64-73 | a longer rest takes another one |
| `Sha256.Sha256Stream.Update` | DroneDevice/Include/DroneDevice/Sha256.hpp:37-51 | what has arrived is extended by the bytes, however they are split; the state is the fold over the whole blocks and the buffer holds the rest |
| `Sha256.Sha256Stream.Finalize` | DroneDevice/Include/DroneDevice/Sha256.hpp:53-99 | the digest of FIPS 180-4 of all that has arrived since the last reset |
| `Sha256.Sha256Stream.Reset` | DroneDevice/Include/DroneDevice/Sha256.hpp:23-35 | nothing has arrived |
| `Sha256.Sha256Stream.Transform` | DroneDevice/Include/DroneDevice/Sha256.hpp:171-213 | the compression of section 6.2.2 |
| `Sha256.Sha256Stream.Expand` | DroneDevice/Include/DroneDevice/Sha256.hpp:175-181 | the message schedule |
| `Sha256.Sha256Stream.Run` | DroneDevice/Include/DroneDevice/Sha256.hpp:183-203 | the 64 rounds |
| `Sha256.Sha256Stream.ReadState` | DroneDevice/Include/DroneDevice/Sha256.hpp:86-98 | the words in order, highest byte first |
| `Gf256.NoShorterPeriod` | DroneDevice/Include/DroneDevice/Aes.hpp:193-208 | x + 1 has order 255, so the walk of initSBox meets 1 again only at its end |
| `Gf256.EveryByteIsPower` | DroneDevice/Include/DroneDevice/Aes.hpp:193-208 | the walk meets every byte but zero |
| `Gf256.InverseIsInverse` | DroneDevice/Include/DroneDevice/Aes.hpp:193-208 | the partner kept by the walk is the only multiplicative inverse |
| `Gf256.MulPowers` | DroneDevice/Include/DroneDevice/Aes.hpp:193-208 | products of powers of x + 1 are powers: the loop keeps p times q at 1 |
| `Gf256.ThirdInverts` | DroneDevice/Include/DroneDevice/Aes.hpp:199-205 | the two updates of the loop undo each other |
| `Gf256.SBoxInverts` | DroneDevice/Include/DroneDevice/Aes.hpp:193-218 | the substitution of section 5.1.1 of FIPS 197 is a permutation |
| `SBoxTable.SBoxIsTable` | DroneDevice/Include/DroneDevice/Aes.hpp:193-212 | for every byte the substitution is the published table, figure 7 of FIPS 197 |
| `AesDecryptor.GaloisMul2` | DroneDevice/Include/DroneDevice/Aes.hpp:178-182 | the sign trick is multiplication by x |
| `AesDecryptor.InitSBox` | DroneDevice/Include/DroneDevice/Aes.hpp:193-212 | the table is the substitution of section 5.1.1 |
| `AesDecryptor.InitInvSBox` | DroneDevice/Include/DroneDevice/Aes.hpp:214-218 | for any permutation, the table is its inverse |
| `AesDecryptor.KeyRoundTrip` | DroneDevice/Include/DroneDevice/Aes.hpp:169-191 | a key in upper-case hexadecimal digits is read back |
| `Aes.MixInverts` | DroneDevice/Include/DroneDevice/Aes.hpp:111-138 | the two steps of the source are the inverse of MixColumns (section 5.1.3), on both sides |
| `Aes.InvMixIsStandard` | DroneDevice/Include/DroneDevice/Aes.hpp:111-138 | they are InvMixColumns of section 5.3.3, with the factors 0e, 0b, 0d and 09 |
| `Aes.RowsRotate` | DroneDevice/Include/DroneDevice/Aes.hpp:140-160 | row r is rotated by r columns |
| `AesCipher.RconIsPower` | DroneDevice/Include/DroneDevice/Aes.hpp:74-76 | the round constants are the powers of x |
| `AesCipher.PreviousOfNext` | DroneDevice/Include/DroneDevice/Aes.hpp:101-109 | an inverse key-schedule round restores the key |
| `AesCipher.CipherInverts` | DroneDevice/Include/DroneDevice/Aes.hpp:72-167 | for every substitution with an inverse, sections 5.1 and 5.3 undo each other |
| `AesExample.CipherRounds` | DroneDevice/Include/DroneDevice/Aes.hpp:72-167 | round by round: substitute, shift, mix but in the last one, add the key |
| `AesExample.FirstRoundKey` | DroneDevice/Include/DroneDevice/Aes.hpp:82-92 | the first round key of the example of appendix A.1 |
| `AesExample.FirstColumn` | DroneDevice/Include/DroneDevice/Aes.hpp:72-167 | a column of the first round of appendix B |
| `AesCipher.CbcInverts` | DroneDevice/Include/DroneDevice/Aes.hpp:42-56 | chaining undoes chaining |
| `AesCipher.CbcDecryptAt` | DroneDevice/Include/DroneDevice/Aes.hpp:42-56 | plain block i is the deciphered block plus the cipher block before it |
| `AesDecryptor.MessageRoundTrip` | DroneDevice/Include/DroneDevice/Aes.hpp:33-56 | what was chained under the cipher of FIPS 197 comes back as the message |
| `AesDecryptor.Decryptor.constructor` | DroneDevice/Include/DroneDevice/Aes.hpp:22-31 | both tables, the key and a zero start block are in place |
| `AesDecryptor.Decryptor.LoadKey` | DroneDevice/Include/DroneDevice/Aes.hpp:169-176 | the key of the 32 digits |
| `AesDecryptor.Decryptor.NextKeyInPlace` | DroneDevice/Include/DroneDevice/Aes.hpp:82-92 | one round of the key schedule, in place |
| `AesDecryptor.Decryptor.PreviousKeyInPlace` | DroneDevice/Include/DroneDevice/Aes.hpp:101-109 | one round back, in place |
| `AesDecryptor.Decryptor.InvMixInPlace` | DroneDevice/Include/DroneDevice/Aes.hpp:111-138 | InvMixColumns, in place |
| `AesDecryptor.Decryptor.InvShiftInPlace` | DroneDevice/Include/DroneDevice/Aes.hpp:140-160 | InvShiftRows, in place |
| `AesDecryptor.Decryptor.SubstituteAndAdd` | DroneDevice/Include/DroneDevice/Aes.hpp:162-165 | InvSubBytes and AddRoundKey, in place |
| `AesDecryptor.Decryptor.DecryptBlock` | DroneDevice/Include/DroneDevice/Aes.hpp:72-167 | the inverse cipher of section 5.3 in place, and the key array exactly as before |
| `AesDecryptor.Decryptor.Reset` | DroneDevice/Include/DroneDevice/Aes.hpp:33-40 | the key and a zero start block |
| `AesDecryptor.Decryptor.Decrypt` | DroneDevice/Include/DroneDevice/Aes.hpp:42-56 | the deciphered block plus the cipher block before it, which this one then is, whichever buffer it is in |
| `AesDecryptor.Decryptor.DecryptMessage` | DroneDevice/Include/DroneDevice/Aes.hpp:33-56 | successive calls after a reset are the chained decryption of the message |

## Left out

- Null pointers passed by the caller, float16 and float conversion, byte swapping on big-endian machines, mutexes.
- Callbacks that call back into the library: on_reception and should_accept are a recorded value and a function; observers are
  recorded events.
- on_reception sees the payload through pointers into the pool; the model hands over a snapshot of it.
- The bytes that stay in a block after it was freed and allocated again.
- The flag bits 29 to 31 of a frame ID are booleans of the model.
- Payloads that wrap the 10-bit length: the control flow is exact, what is stored is only stated below 1024 bytes.
- bufferBlockPushBytes with more than 7 bytes: no caller passes them.
- `Canard.Instance.HandleRxFrame`: tells by its result whether the source's assertions held, instead of stopping where one
  does not.
- `Integrity.DeliveredIsChecked`: requires that no frame of the descriptor is misplaced, because otherwise the source delivers
  payloads of which no checksum was ever sent.
- `Sha256Example.RoundsOfAbc`: the example up to its second round, not its digest.
- The features, node status, offline detection, version and name decoding of `CanProxy`, and the strings in its field
  information.
- `Proxies.CanProxy.Require`: stands for the six request functions, which differ in the service and the message only; the clock
  is read once in each.
- `CanProxyHub.Hub.FindFreeAddress`: requires that some address is free at all; otherwise the source does not end.
- `CanProxyHub.Hub.AttachDevice`: requires it too, for the search it makes.
- The phases of dynamic allocation messages, and the notifications of the hub's observer.
- `ConfigStorage.Flash.Write`: which writes fail is a parameter; sections are byte strings, without the serialization of fields.
- `SerialParser.Parser.Create`: requires that the packet fits when the payload does; the source accepts a payload of up to the
  buffer's length and then writes up to three bytes past it. A length above 256 is written modulo 256, as in the source, and
  `SerialParser.PacketIsRead` is about the others.
- SerialHandler but for the loop that feeds the parser.
- `MemoryFile.MemoryFile.WriteChunk`: offsets with which the end of a chunk overflows 32 bits.
- DroneDevicePlatform, the boards, the drivers, the DSDL compiler and the simple field classes, which touch hardware or would only
  add easy members.

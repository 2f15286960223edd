# s7nodave: a verified model of the driver

s7nodave is an EPICS device support for Siemens S7 PLCs. Records poll values from the PLC; the
driver gathers all requests of a poll group, merges the ones that lie close together, packs them
into telegrams, reads the telegrams over the Snap7 client, and hands slices of the results back.
This project models that pipeline, the layers below it and the records above it, and proves what
they are for.

| file | what it models |
|---|---|
| `PlcTypes.dfy` | bytes, memory areas, PLC memory as a map from area and number to bytes |
| `ReadItem.dfy` | read items: objects that form trees, grow, include others and pass results on |
| `ReadOptimizer.dfy`, `BlockProperties.dfy`, `OptimizedList.dfy` | both passes of the optimizer, what its blocks mean on the wire, the list for all areas |
| `S7Wire.dfy`, `S7Server.dfy` | the bytes of telegrams; a PLC that answers them over a memory of its own, or fails |
| `MicroClient.dfy`, `MultiWrite.dfy` | the Snap7 client: multi-variable read, reading and writing areas of any length, the encoder for writes |
| `PortDriver.dfy` | the packer with its wrap-around scan, and what it puts on the wire |
| `ResultDispatch.dfy`, `BatchedRead.dfy`, `PollGroup.dfy` | handing results down, the whole batched read, one poll from requesters to responses |
| `Witnesses.dfy` | batches, single reads and single writes that do not do, or do not report, what they should |
| `IsoTcp.dfy` | TPKT and COTP framing (section 6 of RFC 1006), fragments and their reassembly |
| `BitTransfer.dfy` | boolean arrays: packing, runs of bits that start within a byte, the poll response |
| `RecordSteps.dfy`, `InputRecord.dfy`, `OutputRecord.dfy` | input and output records as state machines over the steps of their threads |
| `PlcNotation.dfy`, `PlcAddress.dfy` | the notation of PLC addresses, defined on its own; the printer and the parser |

Objects of the source are classes here, its loops are loops, and each method is proved against
predicates and functions about which the lemmas speak. Ghost parameters carry what the loops of
the source leave implicit: `sh` (of type `Places`) is the forest of read items as a value, and
`Current(sh)` says that the objects in memory have that structure. `Whole(P)` is `P`; it only
keeps a proof step that hands `P` on from looking into it. What happens to a telegram is given by
a `Verdict` for each: the connection fails, the PLC refuses it, or it answers with return codes of
its choice. So every theorem holds for every behaviour of the PLC within the protocol, and those
about success say which verdicts they need.

Some words have a fixed meaning. A request is *oversized* if it does not fit into a telegram, with its
fill byte, not even alone. It is *in order* if the PLC has all ranges that are asked for in its memory
area and no oversized one among them contains it. The PLC is *faithful* if no telegram that it answers
tells an error about what it has, and PDULength is even or no two requests of an area span just
PDULength - 18 bytes. A batch is *calm* if, besides, the PLC answers every telegram and has the
oversized ranges; a poll also needs a locked port with a connection for that. What telegrams *tell* about a status is a
predicate over their verdicts: `Series` says that none follows one that has failed, and that the last
one decides.

## Model

| member | source | states |
|---|---|---|
| PollGroup.Process | s7nodaveApp/src/PollGroup.cc:141-270 | whatever the PLC does, every requester gets exactly one response for each of its requests, in their order; a success holds exactly the bytes that the PLC stores in the range; without the lock or without a connection nothing is sent, the connection stays as it is and no response is a success, and the same if a telegram has been lost or refused; a request too long for a telegram never succeeds; if the read as a whole has succeeded and the PLC is faithful, every request that is in order succeeds; a calm poll succeeds as a whole |
| PollGroup.AllSucceedIff | s7nodaveApp/src/PollGroup.cc:238-269 | in a poll that has succeeded as a whole, with a faithful PLC that has all the ranges, all responses are successes if and only if no request is oversized; with an even PDULength, if and only if every request has at most PDULength - 18 bytes |
| PollGroup.PollPlc | s7nodaveApp/src/PollGroup.cc:169-253 | the success decided for each request is right, and its buffer holds what the PLC stores then; without the lock or a connection nothing is sent and no request is successful; otherwise the last telegram decides whether the read as a whole is |
| PollGroup.CheckSuccess | s7nodaveApp/src/PollGroup.cc:238-253 | a request is successful if and only if the whole read was and all its bytes have been read without an error |
| PollGroup.Respond | s7nodaveApp/src/PollGroup.cc:257-269 | pairing results with requests gives each requester the results of its own requests, in order |
| PollGroup.OfAll | s7nodaveApp/src/PollGroup.cc:152-167 | of all gathered requests, those of a requester are what it has queued, in order |
| BatchedRead.ReadBatch | s7nodaveApp/src/PortDriver.cc:422-446 | each request gets nothing, maybe an error, or exactly what the PLC stores; an oversized one gets nothing; with status 0 and a faithful PLC, every request in order is fully read, and one that the PLC lacks has an error; no telegram follows one that is lost or refused, and the status is what the last one tells; a calm batch has status 0 |
| BatchedRead.FailureTold | s7nodaveApp/src/PortDriver.cc:315-335 | if the last telegram has been lost the status is that error; if one for several items has been refused it is what CpuError makes of its error; all telegrams before it have been answered |
| BatchedRead.HistoryTold | s7nodaveApp/src/PortDriver.cc:315-335 | what the history of the packer says about the telegrams holds of the wire: as many verdicts as telegrams, in order, and single reads only where a single item is named |
| BatchedRead.AllReadIff | s7nodaveApp/src/PortDriver.cc:363-397 | if everything is served and the PLC has all the ranges, all requests are fully read if and only if none is oversized; with an even PDULength, if and only if each has at most PDULength - 18 bytes |
| BatchedRead.MeasuresAgreeIff | s7nodaveApp/src/PortDriverReadOptimizer.cc:87 | what the optimizer takes for short enough is so for the packer, for requests of every length, if and only if PDULength is even |
| BatchedRead.RequestsGet | s7nodaveApp/src/PortDriverReadItem.cc:102-137 | from the state of the roots and of the dispatched trees follows what every request gets |
| BatchedRead.RootDecides | s7nodaveApp/src/PortDriver.cc:363-397 | for telegrams of any length, even or odd: if everything is served and the PLC has the root, a request is fully read if and only if its root fits into a telegram or there is nothing to read |
| BatchedRead.ItemGets | s7nodaveApp/src/PortDriverReadItem.cc:102-137 | an item is as sound as its root, complete if its root is, and unread if its root is |
| BatchedRead.LongRootIsRequest | s7nodaveApp/src/PortDriverReadOptimizer.cc:80-101 | a root that is too long for a telegram is the wrapper of an oversized request, with its range: a merged block always fits, unless two requests of an area span just PDULength - 18 bytes with an odd PDULength |
| BatchedRead.RootInOrder | s7nodaveApp/src/PortDriverReadOptimizer.cc:80-118 | the root of a request that is in order lies on the PLC and fits into a telegram |
| BatchedRead.RootMissing | s7nodaveApp/src/PortDriverReadOptimizer.cc:80-118 | the root of a request that the PLC lacks is not there either and goes into a telegram, unless an oversized request contains it |
| BatchedRead.Driver.AsynPlcReadMultipleItems | s7nodaveApp/src/PortDriver.cc:410-448 | without a connection nothing is sent, and all byte counts are 0 while statuses and buffers stay; otherwise as ReadBatch, with success if and only if its status is 0; after a telegram that is lost or refused the result is an error, and the connection is closed exactly for the three errors of the transport |
| BatchedRead.Driver.AsynPlcRead | s7nodaveApp/src/PortDriver.cc:213-240 | at every return the buffer has got some first bytes of what the PLC stores in the range, after success all of them; if the PLC answers and has the range, it is a success, whatever the length; the status is what the last telegram tells, none follows one that has failed; the connection is closed exactly for the three errors of the transport |
| BatchedRead.Driver.AsynPlcWrite | s7nodaveApp/src/PortDriver.cc:450-475 | at every return PLC memory differs exactly by a prefix of the buffer, by all of it after success; if the PLC answers and has the range, up to 65535 bytes are a success; every telegram keeps the limit, none follows one that has failed, and the status is what the last one tells |
| BatchedRead.Driver.AsynPlcWriteBit | s7nodaveApp/src/PortDriver.cc:477-502 | the addressed bit gets the value or nothing changes, and after success it has; bit numbers above 7 go on in the next byte; the one telegram carries 1 for every value but 0, and tells the status; a PLC that answers and has the bit makes it a success |
| BatchWitnesses.LongRequestGetsNothing | s7nodaveApp/src/PortDriver.cc:385-397 | with telegrams of 240 bytes, a request for 240 bytes gets nothing in a batch of status 0, but is read on its own |
| BatchWitnesses.OddLengthGetsNothing | s7nodaveApp/src/PortDriverReadOptimizer.cc:80-101 | with telegrams of 25 bytes, a request for 7 bytes fits by the optimizer's measure, but gets nothing |
| PortDriver.SendRequestToPlc | s7nodaveApp/src/PortDriver.cc:283-408 | the loop ends; every item has been in exactly one full telegram, was empty, was too long and read alone, or is left after an error; the telegrams on the wire are exactly those accounted for, in order; none follows one that has failed, and the status is what the last one tells; items are read completely or not at all, and the others keep what they had, unless a failed telegram has reset them |
| PortDriver.PackAndSend | s7nodaveApp/src/PortDriver.cc:301-406 | termination by the lexicographic measure (items left, items not in the telegram, sent in this run, distance to the end); the accounting of items and telegrams, and that no telegram has failed so far, are kept by every round |
| PortDriver.SendingFull | s7nodaveApp/src/PortDriver.cc:302-315 | a telegram is only sent if it is not empty and no item that is left could have been added to it |
| PortDriver.SendTelegram | s7nodaveApp/src/PortDriver.cc:316-324 | one telegram goes on the wire, and its verdict decides the status; if it is answered, each of its items is read if the PLC has it, and otherwise fails; status, byte count and buffer of all other items stay as they are |
| PortDriver.ReportedMore | s7nodaveApp/src/PortDriver.cc:315-335 | the telegrams of one more round extend a history without failures, and the status is what they tell |
| PortDriver.SeriesJoin | s7nodaveApp/src/PortDriver.cc:315-335 | two series of telegrams, the first without a failure, are one series that the second decides |
| PortDriver.ProcessPlcReadResult | s7nodaveApp/src/PortDriver.cc:258-277 | the k-th data item decides the k-th read item: all its bytes, or an error and no bytes |
| PortDriver.ReadAlone | s7nodaveApp/src/PortDriver.cc:390-397 | an item too long for any telegram is read in parts, but stays unread; the last part decides the status |
| PortDriver.FitsAlone | s7nodaveApp/src/PortDriver.cc:363-372 | an item in a telegram with others fits into one alone |
| OptimizedList.CreateOptimizedList | s7nodaveApp/src/PortDriverReadOptimizer.cc:124-167 | every request has exactly one wrapper in a forest whose roots are the result; of two roots of one area none includes the other, and if one starts before the other, some request below the other start, or at it, is more than four bytes behind it or would not fit with it; new roots fit into a response, have no gaps of more than four bytes, start and end with requests of their area, and the whole never needs more bytes in responses |
| OptimizedList.PlanComplete | s7nodaveApp/src/PortDriverReadOptimizer.cc:128-167 | dealing with the areas one by one leaves no request out and none twice |
| OptimizedList.AddToBucket | s7nodaveApp/src/PortDriverReadOptimizer.cc:134-147 | requests are grouped by area and number, in the order of the keys; those of a group keep their order |
| ReadOptimizer.OptimizeWithinArea | s7nodaveApp/src/PortDriverReadOptimizer.cc:15-122 | the result are the blocks of the kept items, each a root with exactly these items below it; all items of the area stay in the forest, with unchanged ranges |
| ReadOptimizer.KeepUnincluded | s7nodaveApp/src/PortDriverReadOptimizer.cc:18-64 | the kept items have strictly increasing start and end bytes; every other item is below one that includes it |
| ReadOptimizer.JoinNeighbours | s7nodaveApp/src/PortDriverReadOptimizer.cc:66-121 | the second pass replaces each block of several items by a new root that spans exactly the block |
| ReadOptimizer.NewBlock | s7nodaveApp/src/PortDriverReadOptimizer.cc:103-121 | the new item of a block takes its items, never resizes and never refuses them |
| ReadOptimizer.SortByStartByte | s7nodaveApp/src/PortDriverReadOptimizer.cc:16-17 | sorted by start byte, with the same items, and those that start at the same byte in the same order |
| ReadOptimizer.BothPasses | s7nodaveApp/src/PortDriverReadOptimizer.cc:15-122 | what the two passes do together |
| BlockProperties.BlocksChainedAndMaximal | s7nodaveApp/src/PortDriverReadOptimizer.cc:72-101 | items of a block follow each other with gaps of at most four bytes, a block of several fits into a response, and blocks cannot be extended |
| BlockProperties.BlocksInOrder | s7nodaveApp/src/PortDriverReadOptimizer.cc:72-101 | of two blocks of an area, the first starts before the second and ends before its end, and could not have taken the item at which the second starts |
| BlockProperties.BlocksCover | s7nodaveApp/src/PortDriverReadOptimizer.cc:72-101 | the blocks together are the kept items, in order |
| BlockProperties.JoiningSaves | s7nodaveApp/src/PortDriverReadOptimizer.cc:72-122 | a merged block needs no more bytes in a response than its items on their own |
| BlockProperties.OptimizingSaves | s7nodaveApp/src/PortDriverReadOptimizer.cc:15-122 | optimizing an area never costs bytes |
| BlockProperties.NewRootsFit | s7nodaveApp/src/PortDriverReadOptimizer.cc:87-93 | every merged root fits into a response with its header |
| ReadItems.ReadItem.AddReadItem | s7nodaveApp/src/PortDriverReadItem.cc:74-100 | exactly when an item can be included, the range afterwards, and that nothing changes otherwise |
| ReadItems.ReadItem.AddReadItems | s7nodaveApp/src/PortDriverReadItem.cc:47-72 | the same for several items: the range becomes the least one that spans them all |
| ReadItems.ReadItem.DispatchReadResultToChildren | s7nodaveApp/src/PortDriverReadItem.cc:102-137 | every item below gets the error of its parent, or those of its bytes that have been read for the parent, even if that is only a part; all other items are untouched |
| ReadItems.AllDeliverable | s7nodaveApp/src/PortDriverReadItem.cc:114-124 | when all bytes of an item have been read, no item below it, at any depth, is asked to copy a negative number of bytes |
| ReadItems.AttachedOk | s7nodaveApp/src/PortDriverReadItem.cc:74-100 | including items keeps the forest well formed |
| ReadItems.ResizedOk | s7nodaveApp/src/PortDriverReadItem.cc:47-72 | growing a root keeps the forest well formed |
| ReadItems.DescentsApart | s7nodaveApp/src/PortDriverReadItem.cc:102-137 | what lies below different items included by one item is disjoint |
| ResultDispatch.DispatchResults | s7nodaveApp/src/PortDriverReadOptimizer.cc:169-177 | afterwards every item that is no root is settled, and the results of the roots are as before |
| ResultDispatch.RootReachesItem | s7nodaveApp/src/PortDriverReadItem.cc:102-137 | in trees of any depth an item gets the error of its root, or exactly those bytes of its own range that have been read for the root |
| ResultDispatch.RootCovers | s7nodaveApp/src/PortDriverReadItem.cc:139-147 | the range of a root contains the ranges of all items below it, in the same area |
| ResultDispatch.PassesOn | s7nodaveApp/src/PortDriverReadItem.cc:102-137 | passing a result on twice is passing it on once |
| ResultDispatch.NothingShared | s7nodaveApp/src/PortDriverReadOptimizer.cc:169-177 | no item lies below two roots |
| MicroClient.Client.ReadMultiVars | s7nodaveApp/snap7/s7_micro_client.cpp:308-432 | items with result 0 hold what the PLC stores, all other targets are as before; exactly when a telegram is sent, and that it names the items; the result tells what has become of it: a loss its error, a refusal what CpuError makes of its error; without disturbance every item has the result that the PLC tells for it |
| MicroClient.Client.CollectAnswers | s7nodaveApp/snap7/s7_micro_client.cpp:404-430 | the walk over the response gives each item its own answer |
| MicroClient.Client.ReadArea | s7nodaveApp/snap7/s7_micro_client.cpp:52-158 | for up to 65535 elements: the loop ends; the target is a prefix of what the PLC stores, all of it without an error; every telegram asks for a part of the range whose response fits; it succeeds if the PLC answers and has the range; no telegram follows one that has failed, and the result is what the last one tells: a loss its error, a refusal, with whatever error, the one for a refused function |
| MicroClient.Client.ReadRounds | s7nodaveApp/snap7/s7_micro_client.cpp:94-156 | the same loop for any amount, cut off after any number of rounds: if the PLC answers and has the range, then with more than 65535 elements every round sends a telegram that succeeds, and more than 65535 elements are always left |
| MicroClient.FirstRefused | s7nodaveApp/snap7/s7_micro_client.cpp:94-156 | a read of an area ends with the telegram that is refused, with the result for a refused function |
| MicroClient.RefusalsAgreeIff | s7nodaveApp/snap7/s7_micro_client.cpp:135-151 | for which errors a refused read of an area reports what a refused multi-variable read does |
| MicroClient.Client.WriteArea | s7nodaveApp/snap7/s7_micro_client.cpp:160-306 | for any amount the loop ends; at every return PLC memory differs exactly by a prefix of the source that ends with a telegram; every telegram is a write of one item and keeps the limit, none follows one that has failed, and the result is what the last one tells; success means that all is stored, an error of the first telegram nothing, the partial-write error some but not all; if the PLC answers and has the range, just as many elements are stored as the lower 16 bits of the amount say, and it is a success if and only if that is all of them |
| MicroClient.Client.WriteBit | s7nodaveApp/snap7/s7_micro_client.cpp:160-306 | the case of a single bit: the PLC stores the bit or nothing, no other bit changes, and success means that it is stored; one telegram is sent, with the value, and its verdict tells the result; it succeeds if the PLC answers and has the bit |
| MicroClient.LoopEndsIff | s7nodaveApp/snap7/s7_micro_client.cpp:94-156 | as long as every telegram is answered without an error, the count of elements left comes to 0 if and only if the amount fits into 16 bits |
| MicroClient.SliceJoins | s7nodaveApp/snap7/s7_micro_client.cpp:135-151 | the parts that are read form one run |
| MicroClient.WriteJoins | s7nodaveApp/snap7/s7_micro_client.cpp:270-300 | the parts that are written form one write |
| MicroClient.ItemsReady | s7nodaveApp/snap7/s7_micro_client.cpp:389-430 | after the exchange the buffer holds an error or an answer for each item that the walk finds |
| MicroClient.RefNamesItem | s7nodaveApp/snap7/s7_micro_client.cpp:361-387 | the reference in the telegram decodes to the range of the item |
| S7Wire.LayoutWalked | s7nodaveApp/snap7/s7_micro_client.cpp:404-430 | layout and walk are inverse: the walk finds every answer, with bit or byte lengths, fill bytes and failed items |
| S7Wire.WalkOfLayout | s7nodaveApp/snap7/s7_micro_client.cpp:404-430 | the offset of the walk is where the k-th answer stands |
| S7Wire.LayoutLength | s7nodaveApp/snap7/s7_micro_client.cpp:404-430 | the exact length of a layout: a fill byte after odd data, except after the last |
| S7Wire.AddressArrives | s7nodaveApp/snap7/s7_micro_client.cpp:121-131 | three bytes keep an address if and only if it is below 2^24 |
| S7Wire.CpuError | s7nodaveApp/snap7/s7_micro_client.cpp:2450-2470 | 0 for 0 and only for 0, client errors otherwise, never the partial-write error |
| S7Server.ReadArrives | s7nodaveApp/snap7/s7_micro_client.cpp:389-402 | what the client finds in its buffer: the reply if the PLC serves the request and it fits, or a refusal that tells its error, behind which the bytes of the client still stand |
| S7Server.OnlyOneBit | s7nodaveApp/snap7/s7_micro_client.cpp:160-306 | in the memory of the PLC, a write of one bit changes that bit and no other one |
| MultiWrite.PutParts | s7nodaveApp/snap7/s7_micro_client.cpp:486-558 | the encoder puts every data part at its place, with fill bytes after odd data |
| MultiWrite.WalkFindsParts | s7nodaveApp/snap7/s7_micro_client.cpp:486-558 | a walk that ignores return codes finds the data of every item of the encoded telegram |
| IsoTcp.RoundTripIff | s7nodaveApp/snap7/s7_isotcp.cpp:249-283 | a message in one frame is received unchanged if and only if it has at most 4089 bytes |
| IsoTcp.StreamReassembled | s7nodaveApp/snap7/s7_isotcp.cpp:441-491 | the receiver recovers exactly the fragments if there are at most 64 that are short enough and fit; otherwise it fails |
| IsoTcp.LiteralPlacementIff | s7nodaveApp/snap7/s7_isotcp.cpp:441-491 | as written, fragments form their concatenation, whatever the buffer held, if and only if no data comes after data that came after data |
| IsoTcp.DiagramPlacement | s7nodaveApp/snap7/s7_isotcp.cpp:420-491 | placed as the diagram shows, they always do |
| IsoTcp.StaysInsideIff | s7nodaveApp/snap7/s7_isotcp.cpp:441-491 | as written, nothing behind the 4096 bytes of the buffer is changed, whatever lies there, if and only if the last fragment with data ends inside |
| IsoTcp.PlaceIsWeighted | s7nodaveApp/snap7/s7_isotcp.cpp:455-463 | where a fragment is put: the bytes of each earlier fragment count as often as fragments follow it up to there |
| IsoTcp.RightStaysInside | s7nodaveApp/snap7/s7_isotcp.cpp:441-491 | fragments that are put together as they should be also stay inside the buffer |
| IsoTcp.FourFragments | s7nodaveApp/snap7/s7_isotcp.cpp:441-491 | four fragments of 1000 bytes are within all limits, but the last one ends at byte 7000 |
| IsoTcp.AcceptsIff | s7nodaveApp/snap7/s7_isotcp.cpp:441-491 | what the receiver accepts, fragment by fragment, in terms of the whole message |
| IsoTcp.IsoTcpSocket.IsoSendBuffer | s7nodaveApp/snap7/s7_isotcp.cpp:249-283 | one frame with the data goes out, or an error is returned |
| IsoTcp.IsoTcpSocket.IsoRecvFragment | s7nodaveApp/snap7/s7_isotcp.cpp:369-418 | one frame is taken from the stream and its data put in place, or the error that the header or the link calls for |
| IsoTcp.IsoTcpSocket.IsoRecvPDU | s7nodaveApp/snap7/s7_isotcp.cpp:441-491 | the loop ends within 64 fragments; memory, header and rest of the stream are those of the reassembly |
| IsoTcp.IsoTcpSocket.IsoRecvBuffer | s7nodaveApp/snap7/s7_isotcp.cpp:285-299 | a message is returned with its length; its bytes are the concatenation of the fragments where these are placed rightly |
| IsoTcp.IsoTcpSocket.CheckPDU | s7nodaveApp/snap7/s7_isotcp.cpp:47-66 | exactly the headers that pass |
| BitTransfer.WriteCorrectIff | s7nodaveApp/src/S7nodaveRecord.cc:342-448 | a write of n bits sets its run and leaves all other bits of the PLC alone, for all contents, if and only if the run starts with a byte or lies within one |
| BitTransfer.WriteGoesWrong | s7nodaveApp/src/S7nodaveRecord.cc:367-448 | contents for which any other run is written wrongly |
| BitTransfer.WriteToPlc | s7nodaveApp/src/S7nodaveRecord.cc:342-448 | the single writes are made in order until one fails; success if and only if all are accepted, and then the memory of the PLC is what WriteCorrectIff speaks about |
| BitTransfer.WrittenPart | s7nodaveApp/src/S7nodaveRecord.cc:394-436 | for a run that starts with a byte or lies within one, a failing write leaves exactly some first bits of the run written, and all other bits of the PLC as they were |
| BitTransfer.RunSucceedsIff | s7nodaveApp/src/S7nodaveRecord.cc:394-436 | the number of single writes for a run, and that success means that all of them have been accepted and done |
| BitTransfer.WriteThenRead | s7nodaveApp/src/ArraySupport.cc:389-428 | packing, writing, reading and unpacking an array gives 1 for what is not 0 if both succeed, as they do if the PLC accepts everything; whatever fails, no bit outside the run changes |
| BitTransfer.ReadFromPlc | s7nodaveApp/src/S7nodaveRecord.cc:257-340 | succeeds if and only if the PLC answers and the run needs no more bytes than the buffer has, and then the buffer holds the run and zeros |
| BitTransfer.Realign | s7nodaveApp/src/S7nodaveRecord.cc:297-318 | bit k of the target is bit startBit + k of the source for k < n, and 0 behind |
| BitTransfer.ProcessPollResponse | s7nodaveApp/src/S7nodaveInputRecord.cc:194-250 | what a poll makes of the bits, including what it does to the memory behind the new buffer |
| BitTransfer.PollWorksIff | s7nodaveApp/src/S7nodaveInputRecord.cc:202-232 | the bits are rearranged as they should be, and no byte behind the new buffer changes, if and only if n is a multiple of 8 or both sizes are equal |
| BitTransfer.PollWitness | s7nodaveApp/src/S7nodaveInputRecord.cc:228-232 | for seven bits from bit 4 on, a bit that was not asked for is left set |
| BitTransfer.ConvertRecordToBoolBuffer | s7nodaveApp/src/ArraySupport.cc:389-428 | bit i says whether element i is not 0, all bits behind are 0 |
| BitTransfer.ConvertBoolBufferToRecord | s7nodaveApp/src/ArraySupport.cc:202-243 | element i is bit i, the elements behind are untouched |
| InputRecord.EveryRunIsSafe | s7nodaveApp/src/S7nodaveInputRecord.cc:17-129 | in every interleaving no buffer is freed twice, used after that or lost, data and error never come together, and every callback finds the record being processed |
| InputRecord.EveryProcessing | s7nodaveApp/src/S7nodaveInputRecord.cc:68-129 | over all runs: if a result has been stored since the processing before, the record reports the last one, data as its value and a failure as an alarm, and is done; otherwise it has not been called back, sets PACT and queues a read |
| InputRecord.ReadIsReported | s7nodaveApp/src/S7nodaveInputRecord.cc:17-57 | the result of a read that no poll overwrites is what the record reports when it is called back |
| InputRecord.ScanStartsRead | s7nodaveApp/src/S7nodaveInputRecord.cc:97-109 | a scan that finds no data and no error leads, through its next two steps and an accepted request, to a record with PACT set and one request queued, whatever the other threads do meanwhile |
| InputRecord.SharedShowsResult | s7nodaveApp/src/S7nodaveInputRecord.cc:17-57 | what the threads share is the last result stored since it was taken: its data, or its error, or nothing |
| InputRecord.NothingElseReported | s7nodaveApp/src/S7nodaveInputRecord.cc:107-117 | at other times only a request that is not accepted is reported, as an alarm |
| InputRecord.DefinedIff | s7nodaveApp/src/S7nodaveInputRecord.cc:119-124 | UDF is cleared if and only if a value has been reported |
| InputRecord.PollAsksForScan | s7nodaveApp/src/S7nodaveInputRecord.cc:276-277 | after every poll a scan is requested, and the request stands until the record is scanned for it or found being processed |
| InputRecord.AlwaysCloser | s7nodaveApp/src/S7nodaveInputRecord.cc:68-129 | a measure that every step of the record and port threads that carries the processing on decreases, and no other step changes; at 0 the record can be scanned again |
| InputRecord.ReadOnce | s7nodaveApp/src/S7nodaveInputRecord.cc:17-129 | a run that reads, is called back and reports the value, with its buffer freed |
| InputRecord.PollOnce | s7nodaveApp/src/S7nodaveInputRecord.cc:194-278 | a run that is polled, realigned, scanned and reports the value of the second buffer |
| InputRecord.StepKeepsInv | s7nodaveApp/src/S7nodaveInputRecord.cc:255-277 | every step of every thread keeps buffer ownership and the protocol of PACT |
| InputRecord.NeverStuck | s7nodaveApp/src/S7nodaveInputRecord.cc:68-129 | a record that is being processed can always go on |
| InputRecord.NothingIsLost | s7nodaveApp/src/S7nodaveInputRecord.cc:255-277 | when nothing goes on, every buffer has been freed exactly once, except for data not yet taken |
| OutputRecord.EveryRunIsSafe | s7nodaveApp/src/S7nodaveOutputRecord.cc:69-151 | the same for output records; a queued request always finds data to write |
| OutputRecord.LatestIsWritten | s7nodaveApp/src/S7nodaveOutputRecord.cc:69-92 | over all runs: the port thread takes and writes the buffer that the last scan has filled, and nothing else is ever written |
| OutputRecord.AcceptedIsWritten | s7nodaveApp/src/S7nodaveOutputRecord.cc:69-142 | every value whose request has been accepted is written exactly once and in order; only the last one can be pending |
| OutputRecord.AlarmsAreRaised | s7nodaveApp/src/S7nodaveOutputRecord.cc:93-96 | every failed write and every request not accepted raises an alarm, and nothing else does |
| OutputRecord.EveryCallback | s7nodaveApp/src/S7nodaveOutputRecord.cc:144-149 | a callback ends the processing and clears UDF if and only if the last write has succeeded |
| OutputRecord.AlwaysCloser | s7nodaveApp/src/S7nodaveOutputRecord.cc:107-151 | a measure that every step of a record being processed decreases; at 0 the record can be scanned again |
| OutputRecord.WriteOnce | s7nodaveApp/src/S7nodaveOutputRecord.cc:69-151 | a run that scans, queues, writes and is called back, with its buffer freed |
| OutputRecord.StepKeepsInv | s7nodaveApp/src/S7nodaveOutputRecord.cc:69-151 | every step keeps the invariant |
| OutputRecord.NeverStuck | s7nodaveApp/src/S7nodaveOutputRecord.cc:107-151 | a record that is being processed can always go on |
| PlcAddress.RoundTripIff | s7nodaveApp/src/PlcAddress.cc:36-59 | a valid address is parsed back from its printed form if and only if its block number is not negative and a timer or counter has word size |
| PlcAddress.PrintedIsParsed | s7nodaveApp/src/PlcAddress.cc:36-59 | what becomes of the printed form of every valid address: rejected exactly for negative block numbers and for timers and counters of bit size; other sizes of these come back as words |
| PlcAddress.NormalForm | s7nodaveApp/src/PlcAddress.cc:205-316 | for every string that is accepted, printing and parsing again gives the same address |
| PlcAddress.CaseDoesNotMatter | s7nodaveApp/src/PlcAddress.cc:80-161 | letters may be in upper or lower case |
| PlcAddress.CreateFromString | s7nodaveApp/src/PlcAddress.cc:205-316 | a string is accepted with an address if and only if the notation gives it that meaning, where any character that is no digit may stand for the dot behind a block number, and the start byte of a bit in a block may be missing |
| PlcAddress.ParsedIff | s7nodaveApp/src/PlcAddress.cc:205-316 | the meaning of strings by the notation, which does not speak of the parser, is what the parser computes |
| PlcAddress.NotAmbiguous | s7nodaveApp/src/PlcAddress.cc:205-316 | no string means two addresses |
| PlcAddress.ByManualIff | s7nodaveApp/src/PlcAddress.cc:205-316 | of the accepted strings, exactly those are written as in the manual that have the dot behind the block number and a start byte |
| PlcAddress.AnySeparator | s7nodaveApp/src/PlcAddress.cc:243-244 | in every accepted string for a data block, any character that is no digit may be put for the one behind the block number: the address stays the same |
| PlcAddress.AcceptedWithoutDot | s7nodaveApp/src/PlcAddress.cc:243-244 | "DB1xDBB0" is taken for byte 0 of block 1 |
| PlcAddress.AcceptedWithoutByte | s7nodaveApp/src/PlcAddress.cc:290-297 | "DB1.DBX.5" is taken for bit 5 of byte 0 |
| PlcAddress.ToString | s7nodaveApp/src/PlcAddress.cc:36-59 | the printed form of a printable address is written as in the manual and means the address |

## Findings

Places where the code departs from what it evidently means to do. Each is stated for the code as it
is, with the condition under which it does what it should.

| where | what happens | stated by |
|---|---|---|
| s7nodaveApp/src/PortDriver.cc:390-397 | a read item that does not fit into a telegram is read with `ReadArea`, but `setBytesRead` is never called: the bytes arrive, and its request and all requests below it get nothing | BatchedRead.AllReadIff, BatchedRead.RootDecides, BatchWitnesses.LongRequestGetsNothing |
| s7nodaveApp/src/PortDriverReadOptimizer.cc:87 | the optimizer reckons without the fill byte, the packer with it; they agree about all lengths if and only if PDULength is even | BatchedRead.MeasuresAgreeIff, BatchWitnesses.OddLengthGetsNothing |
| s7nodaveApp/snap7/s7_micro_client.cpp:96-98 | NumElements has 16 bits: as long as the PLC answers the telegrams without an error, a read of more than 65535 elements never ends | MicroClient.Client.ReadRounds, MicroClient.LoopEndsIff, ClientWitnesses.LongRead |
| s7nodaveApp/snap7/s7_micro_client.cpp:212-214 | the same in a write: of more than 65535 elements only as many are written as the lower 16 bits say; then a telegram without data goes out, and a PLC that answers it with an error, as the one modelled here does, ends the loop with the partial-write error, or with an address error if nothing has been written | MicroClient.Client.WriteArea, ClientWitnesses.LongWrites |
| s7nodaveApp/snap7/s7_micro_client.cpp:135-151 | a refused read of an area is noticed only because a byte of the request, left in the buffer, is taken for a return code: whatever the error, it is reported as a refused function, while a multi-variable read tells the error | MicroClient.Client.ReadArea, MicroClient.RefusalsAgreeIff, ClientWitnesses.PasswordNeeded |
| s7nodaveApp/snap7/s7_isotcp.cpp:458 | the cumulative offset is added to a pointer that has been advanced already: data in a third fragment goes too far, even behind the buffer | IsoTcp.LiteralPlacementIff, IsoTcp.StaysInsideIff, IsoTcp.FourFragments |
| s7nodaveApp/src/S7nodaveRecord.cc:381-430 | runs of bits that start within a byte and reach into the next one are written wrongly | BitTransfer.WriteCorrectIff |
| s7nodaveApp/src/S7nodaveRecord.cc:290 | the read of a run that needs one byte more than its buffer always fails | BitTransfer.ReadFromPlc |
| s7nodaveApp/src/S7nodaveInputRecord.cc:228-232 | the poll masks the byte at the last index of the response, which may lie behind the new buffer | BitTransfer.PollWorksIff, BitTransfer.PollWitness |
| s7nodaveApp/src/PlcAddress.cc:243-244 | whatever character follows the number of a data block is taken for the dot | PlcAddress.AnySeparator, PlcAddress.ByManualIff, PlcAddress.AcceptedWithoutDot |
| s7nodaveApp/src/PlcAddress.cc:290-297 | the start byte of a bit in a data block may be missing; it is 0 then | PlcAddress.ByManualIff, PlcAddress.AcceptedWithoutByte |
| s7nodaveApp/src/PlcAddress.cc:178-203 | addresses with a negative block number, and timers and counters of any size, are valid; the printed form is rejected for negative numbers and for bit size, and byte and double-word size come back as words | PlcAddress.RoundTripIff, PlcAddress.PrintedIsParsed |

## Left out

- Sockets, time-outs, ping, connection set-up and the negotiation of PDULength: PDULength is a parameter, from 24 to 65535; in theorems about success it is at most 4096, the size of the buffer.
- S7Server.Exchange: takes for granted that a response reaches the client unchanged; by IsoTcp.LiteralPlacementIff the transport as written delivers it so if no more than two fragments in a row carry data, which includes every response in one or two fragments.
- Timers and counters: the server model answers requests for them, and reads of single bits, with an item error, so what is said about their data is only that none is reported; they are addressed by element and never optimized.
- MicroClient.Client.ReadArea: bits, and timers and counters with word lengths of their own; the driver reads bytes only.
- MicroClient.Client.WriteArea: timers and counters with word lengths of their own, which the driver does not use; for bits, of which the driver writes one at a time, see MicroClient.Client.WriteBit.
- MicroClient.Client.ReadMultiVars: items of single bits, and word lengths of timers and counters; the driver asks for bytes only.
- MicroClient.Client.ReadRounds: stands for the loop of `opReadArea` with more than 65535 elements, which a method that has to end cannot run to its end.
- Ranges that a telegram cannot name: block numbers and lengths above 65535 and bit addresses above 24 bits are excluded by the preconditions of the batched read; S7Wire.AddressArrives and MicroClient.Client.ReadRounds say why.
- BatchedRead.AllReadIff: everything is served for certain only if PDULength is even or no two requests of an area span just PDULength - 18 bytes; otherwise a merged block may have just the length that is measured differently, and BatchedRead.RootDecides gives the condition on the roots.
- BatchedRead.Driver.AsynPlcReadMultipleItems: over a connection, the requests must not have been read before, as the poll group leaves them when it makes them.
- BatchedRead.ReadBatch: a request for no bytes counts as in order only if its place lies within the memory that the PLC has, as it may be merged with its neighbours.
- ReadItems.ReadItem.DispatchReadResultToChildren: a partial result is only handed down if no item below begins behind what has been read: the source would copy a negative number of bytes. The driver only hands down complete results, or none.
- The exchange of `WriteMultiVars`: only its encoder is modelled, and the walk over what it encodes.
- Return code 0 in an item of a response: a PLC that follows the protocol does not send it.
- BitTransfer.WriteToPlc: a single write is accepted, or fails whether it has been done or not; how the client comes to that is not modelled again there, see BatchedRead.Driver.AsynPlcWrite and BatchedRead.Driver.AsynPlcWriteBit.
- PlcAddress.NormalForm: numbers are unbounded in the model, while the code converts them with `atoi`, which is only defined for numbers of the range of `int`.
- Byte order conversion, floating point, slopes and offsets, strings and the tables that select data types: no protocol and no arithmetic that matters.
- EPICS and asyn themselves: record support, timers, queues, locks, tracing. In InputRecord and OutputRecord a mutex section is one step, PACT is only cleared on completion, allocations succeed, and EPICS may scan a record at any time while it is not being processed.
- The other operations of Snap7, such as upload, download, clock, passwords and block lists: the driver does not use them.

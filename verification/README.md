# UDT, modelled and verified in Dafny

UDT is a reliable transport over UDP: a sliding-window protocol with selective loss reports,
light and full acknowledgements and acknowledgements of acknowledgements, on 31-bit sequence
numbers that wrap around. This project models one direction of an established connection, the
data structures it runs on, and the rest of the machinery around them, and proves that they do
what the program relies on.

## How the modules fit together

* **The protocol on unbounded numbers.** `SendSide` and `ReceiveSide` are the two ends,
  `Connection` puts them together with a network that may lose, duplicate, delay and reorder
  datagrams, as atomic steps; `packData` is split where it takes the ACK lock, and so is ACK
  processing. `Safety` proves the invariant over every run, `Theorems` states what follows for
  every reachable state, `Progress` that no reachable state is a dead end, `Recovery` what becomes
  of lost packets, ACKs and advertised windows, from any state that satisfies the invariant on.
* **Wrapping numbers.** `SequenceNumbers` is the 32-bit arithmetic with its overflows excluded by
  type, and its agreement with unbounded numbers that lie close together.
* **Data structures.** `LossRuns`, `LossCells` and `BackLinks` carry the proofs of the two loss
  lists `SndLossLists` and `RcvLossLists`; `LossReports` is the encoding of loss reports;
  `Bytes`, `SndBuffers`, `SlotArrays` and `RcvBuffers` are the two buffers; `AckWindows` is the
  ACK history.
* **The ends as the program keeps them.** `SndEndpoints` and `RcvEndpoints` are classes with the
  wrapped fields, loss lists, buffers and history of the program; each method is proved to be the
  step of the unbounded end. `Linkage` joins both ends and the network: every method is a step of
  `Connection`, takes and gives the wire forms of its datagrams, and so inherits every theorem.
* **Message mode.** `RcvBuffers` has the scanning and reading of messages, `Messages` what
  follows over whole runs of arrivals, acknowledgements, reads and counts. `MsgLinkage` is the
  connection of `Linkage` with a record of the messages sent and of all that happens to the
  receiver's slots, and proves that record to be such a run.
* **Units.** `UnitPools` are the packet units and who holds them. A receive buffer works on a
  pool: which unit each slot has, its flag and the pool's count are part of its invariant.
* **Around it.** `Heaps` and `SendLists` (the heap of sockets with something to send),
  `TimerLists` (the receiving thread's list and its scan), `Md5` (the incremental hash, after RFC
  1321). `Modular` and `Numbers` are arithmetic and sets.

## Assumptions

* The receive buffer is no larger than the flight flag size, and twice the window is below the
  sequence threshold.
* The peer is honest: ACKs, windows and loss reports are those the modelled receiver sends.
  Forged ones are modelled as the program treats them, but the theorems are about honest runs.
* A datagram is delivered while its numbers are within the threshold of the numbers it is
  compared with (`Linkage.Timely`); `Linkage.FreshIsTimely` shows what that leaves out. The
  receiver's last ACKed ACK, too, must not fall 2^30 packets behind. Of an ACK that waits for its
  lock nothing more is assumed.
* Time to live is infinite, and the clock never goes back.
* Regions under one lock are atomic steps. The initial number may be 0, in which case the current
  number starts at -1.
* Congestion control is an arbitrary number given to the window test.

## Where the code and its description differ, or a property has a limit

* `seqoff` is described as the offset from the second number to the first; it is the offset from
  the first to the second, and the model follows the code.
* `sendCtrl` has an arm for a periodic loss report, but the timer that would call it is commented
  out in `checkTimers` (src/core.cpp:2586-2594); the model lets it happen at any time.
* The test in `sendCtrl` for whether the sender already has an ACK always succeeds where it stands
  (`RcvEndpoints.RcvEndpoint.SendAck`), and the branch of `acknowledge` that resets a wrapped ring
  is never reached.
* `remove_` never moves an entry up, so taking out a node that is not the root can break the heap
  order: `Heaps.WithoutOrdered` says exactly when, `Heaps.WithoutCanFail` gives a case.
* `scanMsg` takes the buffer for empty when nothing is acknowledged and the furthest offset is 0,
  which is also so when there is one packet. `Messages.OverlooksExactly` says exactly when a read
  leaves a message behind, `Messages.Overlooked` gives a run that comes to it.
* `getRcvMsgNum` counts a message when packets of one unfinished message fill all slots but one;
  no read gives it. `Messages.CountsInVain` says exactly when a count is in vain,
  `Messages.CountedInVain` gives a run that comes to it.
* `getNextAvailUnit` does not look at the last unit of a chunk, nor at the units before its
  position in the chunk where it starts: `UnitPools.Looked`.

## Model

| member | source | states |
|---|---|---|
| Theorems.EndToEnd | src/core.cpp:2283-2468 | In every reachable state of a connection, whatever the network lost, duplicated, delayed or reordered, the bytes recv has returned are a prefix of the bytes send has accepted |
| Theorems.NoPrematureRelease | src/core.cpp:1983-2055 | The sender's data ACK and last ACK never pass the first number the receiver misses; every sent number the receiver misses still has its original packet at its offset in the block list |
| Theorems.SenderAlignment | src/core.cpp:2294-2348 | Block k carries number last data ACK + k, the cursor stands at current + 1, lost numbers lie in [last data ACK, current]; the span is below twice the initial window always, and below the window, with last ACK + flow within it, when no ACK waits for its lock |
| Theorems.ReceiverHoles | src/core.cpp:2429-2465 | From the last ACK to the newest number a slot is empty exactly when its number is in the loss list, beyond the newest all are empty, before the first missing none is; all numbers fit buffer and loss list, and the last acknowledged ACK never passes the last ACK |
| Theorems.NumbersInOrder | src/core.cpp:1764-1849 | The numbers of the two ends stay ordered: last ACKed ACK, what full ACKs brought, last ACK, first missing, newest seen, newest sent; and the sender's span is at most twice the window |
| Theorems.NeverStuck | src/core.cpp:1972-2184 | In any run every enabled step can be taken: no step reads outside the block list, releases an unsent block or meets an empty slot, and neither end ever finds the other's packets forged |
| Theorems.OnePayloadPerNumber | src/core.cpp:2294-2348 | Any two data packets with one number, on the network at any two moments of a run, carry the same bytes |
| Theorems.ReachableInv | src/core.cpp:2283-2468 | The connection invariant holds in every reachable state |
| Safety.InvStep | src/core.cpp:1754-2184 | Every step of either end keeps the connection invariant |
| Safety.InvRun | src/core.cpp:1754-2468 | Every run from a state that satisfies the invariant ends in one that does |
| Safety.SenderStep | src/core.cpp:1983-2055 | Every step keeps the sender's invariant, never breaks the connection, and never lets the sender believe in an ACK beyond what is received |
| Safety.ReceiverStep | src/core.cpp:2405-2468 | Every step keeps the receiver's invariant, and what an ACK may cover never shrinks |
| Progress.NoDeadlock | src/core.cpp:2638-2653 | From every reachable state, even after everything in flight is lost, there is a run without further send calls that delivers all accepted bytes: the timer, the minimum window of 2 and retransmission leave no dead end |
| Progress.LearnAck | src/core.cpp:1819-1831 | When all is received and acknowledged but the sender does not know it, an ACK timer and its ACK leave the sender with an open window |
| Recovery.LostKept | src/core.cpp:2051-2053 | No step of either end forgets a lost number: afterwards it is still on the list, or below the data ACK, or the number packData holds |
| Recovery.LostIsRepaired | src/core.cpp:2295-2308 | Over every run a lost number stays on the list or in packData's hand until it is acknowledged or a step sends its packet again, with the bytes first queued under it |
| Recovery.GapReported | src/core.cpp:2439-2453 | Whatever becomes lost at the receiver lies between the newest number and the packet that arrived, and a report of just these numbers goes out at once; a packet stored leaves all it leapt over lost |
| Recovery.GapRepaired | src/core.cpp:2439-2453 | When that report arrives next, every number that became lost is on the sender's list |
| Recovery.AckConfirmed | src/core.cpp:2013-2125 | A remembered ACK that is delivered, gets its lock and is confirmed leaves last ACK, data ACK and last ACKed ACK at the larger of their old value and its number, keeps exactly the lost numbers at or above it, and leaves no record as old in the history |
| Recovery.RoomRun | src/core.cpp:1828-1831 | Over every run no ACK under way advertises, beyond the minimum of 2, more slots than are free in front of the reader |
| Recovery.RoomThere | src/core.cpp:1828-1831 | In every reachable state the free slots cover what every ACK under way advertises beyond the minimum |
| Recovery.WindowHonoured | src/core.cpp:2430-2437 | A packet from inside the window of any ACK under way, beyond the minimum, is stored when it arrives, unless it is there or read already |
| Connection.InitInv | src/core.cpp:622-626 | The numbers and empty lists a connection starts with satisfy the invariant |
| Connection.InvSound | src/core.cpp:2294-2302 | In a state that satisfies the invariant the retransmission offset is inside the block list, a waiting ACK releases only sent blocks, and the reader meets no empty slot |
| SendSide.EnqueueKeeps | src/core.cpp:1109-1118 | Queued bytes join the block list behind the packets numbered before; the sender invariant holds |
| SendSide.PickKeeps | src/core.cpp:2295 | Taking the least lost number keeps the invariant |
| SendSide.RereadIsOriginal | src/core.cpp:2297-2308 | A retransmission reads exactly the packet first queued under its number, or nothing when an ACK has overtaken it, even if ACKs came between taking the number and the lock |
| SendSide.CheckKeeps | src/core.cpp:2334-2336 | The window test opens no more than the flow window allows |
| SendSide.AdvanceKeeps | src/core.cpp:2338-2343 | A new packet is the one numbered current + 1; the span stays within the window |
| SendSide.LiteAckKeeps | src/core.cpp:1987-1998 | A light ACK moves the last ACK and shrinks the flow window by as much, so that neither passes what a full ACK has covered plus the initial window |
| SendSide.AckKeeps | src/core.cpp:2013-2030 | A full ACK from an honest receiver is never taken for forged, and keeps the window invariant before the ACK lock is held |
| SendSide.ReleaseKeeps | src/core.cpp:2032-2055 | Under the ACK lock only sent blocks are released, and blocks, cursor and loss list stay aligned |
| SendSide.NakKeeps | src/core.cpp:2139-2177 | An honest loss report changes the loss list only, and keeps it inside [last data ACK, current] |
| SendSide.ExpireKeeps | src/core.cpp:2638-2647 | The timer puts only sent, unreleased numbers on the loss list |
| SendSide.BlockOf | src/core.cpp:2300-2308 | Every number from the last data ACK to the current one has its packet at its offset |
| SendSide.PickTakes | src/core.cpp:2295 | The number taken is lost, none lost lies before it, and all others stay lost |
| SendSide.WindowExact | src/core.cpp:2334-2336 | The window is open exactly when one more packet leaves the unacknowledged ones within the flow window and within the congestion window |
| SendSide.LiteAckEdge | src/core.cpp:1987-1998 | A light ACK leaves the right edge of the window where it is, and moves the last ACK to the larger number |
| SendSide.AckEdge | src/core.cpp:2013-2030 | A full ACK that is not older sets the window to what it advertises; one beyond current + 1 breaks the connection and does nothing else |
| SendSide.ReleaseSpares | src/core.cpp:2032-2055 | Of the lost numbers an ACK takes exactly those below the data ACK, so that the one it asks for stays; of the blocks exactly those before it |
| SendSide.ExpireLoses | src/core.cpp:2638-2647 | With nothing lost, the timer makes lost exactly what is sent and not acknowledged; otherwise it changes nothing |
| ReceiveSide.StoreKeeps | src/core.cpp:2429-2467 | processData keeps the receiver invariant: holes are exactly the lost numbers, everything fits |
| ReceiveSide.StoreCovers | src/core.cpp:2437-2465 | An arriving packet never uncovers a number: what may be acknowledged only grows |
| ReceiveSide.StoreAdvances | src/core.cpp:2429-2467 | With an empty buffer the packet that is missing first is always accepted and moves the acknowledged number on |
| ReceiveSide.AcknowledgeKeeps | src/core.cpp:1764-1852 | A full ACK covers stored packets only, and keeps the receiver invariant |
| ReceiveSide.Ack2Keeps | src/core.cpp:2104-2128 | An ACK of an ACK keeps the invariant; the last ACKed ACK stays at or below the last ACK |
| ReceiveSide.AckRoundTrip | src/core.cpp:2104-2126 | The confirmation of an ACK just sent makes its number the last ACKed ACK, empties the history, and no ACK is due until something new arrives |
| ReceiveSide.ReadKeeps | src/core.cpp:1209 | recv keeps the invariant and leaves exactly the packets it did not finish |
| ReceiveSide.InvReady | src/buffer.cpp:377-412 | Every acknowledged, unread slot is filled, so a read never meets an empty one |
| ReceiveSide.StoreTakes | src/core.cpp:2429-2437 | A packet is stored exactly when its number is not acknowledged, not there, and less than the buffer size minus one past the first unread one; any other changes nothing |
| ReceiveSide.StoreNotes | src/core.cpp:2439-2465 | A stored packet makes lost exactly the numbers between the newest one and itself, and is itself lost no more |
| ReceiveSide.FirstMissingExact | src/core.cpp:1764-1769 | The number acknowledged is the one whose slot is empty while no slot before it is |
| ReceiveSide.AckExact | src/core.cpp:1771-1849 | A full ACK goes out exactly when the first missing number is new, or is unconfirmed and the last ACK was long enough ago; it is the newest record of the history, which keeps the newest others up to its capacity |
| ReceiveSide.Ack2Exact | src/core.cpp:2104-2126 | The confirmation of any remembered ACK, with a time measured, raises the last ACKed ACK to its number if that is larger, and forgets it and all older ones; of an unknown one nothing comes |
| SequenceNumbers.CmpAgrees | src/common.h:225-226 | seqcmp on numbers modulo 2^31 has the sign of the true difference whenever that is less than 0x3FFFFFFF |
| SequenceNumbers.CmpCurrent | src/common.h:225-226 | The same against a current number that is still -1 when the initial number is 0, without 32-bit overflow |
| SequenceNumbers.OffAgrees | src/common.h:231-240 | seqoff is the true offset from the first number to the second |
| SequenceNumbers.EqAgrees | src/core.cpp:1771 | Equal wire numbers are equal numbers while they lie less than 2^31 apart |
| SequenceNumbers.LenAgrees | src/common.h:228-229 | seqlen is offset + 1 when the second number is ahead, without overflow |
| SequenceNumbers.LenFits | src/common.h:228-229 | The pairs for which seqlen would overflow are exactly those a full circle apart |
| SequenceNumbers.IncAgrees | src/common.h:242-243 | incseq is the next number, also from -1 |
| SequenceNumbers.DecAgrees | src/common.h:245-246 | decseq is the number before |
| SequenceNumbers.IncByOffset | src/common.h:248-249 | incseq by the offset seqoff gives arrives at the second number |
| SequenceNumbers.CmpTransitive | src/common.h:225-226 | seqcmp orders transitively among numbers within one threshold |
| SequenceNumbers.ThresholdExact | src/common.h:231-240 | The threshold is exact: seqoff is right for all pairs at a distance if and only if the distance is below 0x3FFFFFFF |
| RcvEndpoints.IncAckAgrees | src/common.h:264-265 | incack is the next ACK number modulo 2^31 |
| SndLossLists.SndLossList.constructor | src/list.cpp:43-70 | A new sender loss list is empty |
| SndLossLists.SndLossList.Insert | src/list.cpp:85-255 | insert is set union with the interval and returns exactly how many numbers are new, for every list and interval that together span less than one turn of the array, across wrap-around of array and numbers and with the insertion hint |
| SndLossLists.SndLossList.Remove | src/list.cpp:257-367 | remove drops exactly the numbers up to its argument |
| SndLossLists.SndLossList.GetLostSeq | src/list.cpp:376-418 | getLostSeq returns and removes the least lost number, -1 if there is none |
| SndLossLists.SndLossList.GetLossLength | src/list.cpp:369-374 | The length is the number of lost numbers |
| SndLossLists.SndLossList.FindPrior | src/list.cpp:153-161 | The search finds the last run before a number, whether it starts at the hint or at the head |
| SndLossLists.SndLossList.Coalesce | src/list.cpp:218-252 | Coalescing ends with runs apart, the same numbers and the exact length |
| SndLossLists.SndLossList.CutAt | src/list.cpp:297-346 | Finding where to cut, splitting a run when needed, changes no number |
| LossRuns.MergeNext | src/list.cpp:219-249 | Absorbing the next run keeps the numbers and corrects the length by the overlap |
| LossRuns.MergeDone | src/list.cpp:250-254 | Once the next run is out of reach the runs are ordered and the length is the cardinality |
| LossCells.BeforeKeeps | src/list.cpp:111-125 | A run written before the head keeps the layout in which a cell's place tells its number |
| LossCells.AfterKeeps | src/list.cpp:163-176 | A run linked behind another keeps the layout |
| LossCells.UnlinkedKeeps | src/list.cpp:246-248 | Unlinking a run keeps the layout |
| LossCells.ShiftedKeeps | src/list.cpp:399-412 | Taking the first number off the head run, which moves to the next cell, keeps the layout |
| RcvLossLists.RcvLossList.constructor | src/list.cpp:422-443 | A new receiver loss list is empty |
| RcvLossLists.RcvLossList.Insert | src/list.cpp:453-499 | An interval after all lost numbers is added, extending the last run when it touches it |
| RcvLossLists.RcvLossList.Remove | src/list.cpp:501-629 | remove takes out exactly one number and says whether it was there, in all unlink, shift, trim and split cases, with a backward search that ends |
| RcvLossLists.RcvLossList.Find | src/list.cpp:649-667 | find is true exactly when the set meets the interval |
| RcvLossLists.RcvLossList.GetFirstLostSeq | src/list.cpp:674-680 | The first lost number is the least |
| RcvLossLists.RcvLossList.GetLossLength | src/list.cpp:669-672 | The length is the number of lost numbers |
| RcvLossLists.RcvLossList.GetLossArray | src/list.cpp:682-703 | The words written encode whole runs of the least lost numbers, never a cut pair, within the limit; all of them when the limit exceeds their number |
| RcvLossLists.RcvLossList.FindBack | src/list.cpp:579-582 | The backward search ends at the last run before the number |
| BackLinks.AfterLinked | src/list.cpp:486-495 | Adding a run keeps forward and backward links and the tail |
| BackLinks.UnlinkedLinked | src/list.cpp:526-535 | Unlinking a run keeps forward and backward links and the tail |
| BackLinks.ShiftedLinked | src/list.cpp:542-568 | Moving the head run keeps forward and backward links and the tail |
| BackLinks.PriorLinks | src/list.cpp:527-532 | A backward link leads to the run that links forward |
| LossReports.DecodeEncode | src/core.cpp:2140-2162 | Decoding the words of a loss report gives back the ranges that were written |
| LossReports.NakAddsUnacknowledged | src/core.cpp:2139-2177 | A report of sent numbers adds to the sender's loss list exactly its numbers at or above the last ACK |
| LossReports.NakForged | src/core.cpp:2144-2149 | A report that names a number not yet sent breaks the connection |
| LossReports.WordsExact | src/core.cpp:2446-2451 | A range is written as its first number with the top bit set and its last; a single number as itself |
| SndBuffers.SndBuffer.constructor | src/buffer.cpp:47-77 | A new send buffer is an empty circle of blocks |
| SndBuffers.SndBuffer.AddBuffer | src/buffer.cpp:112-156 | The bytes join the queue as one message of framed packets; queued packets and cursor stay; the message number wraps to 1 |
| SndBuffers.SndBuffer.Increase | src/buffer.cpp:278-333 | New blocks are linked behind the last one; queue and cursor stay, the size grows by one unit |
| SndBuffers.SndBuffer.MakeRoom | src/buffer.cpp:118-120 | The growth loop ends with room for the packets and one block to spare |
| SndBuffers.SndBuffer.ReadNext | src/buffer.cpp:209-222 | The packet at the cursor is read and the cursor moves; nothing when all are sent |
| SndBuffers.SndBuffer.ReadAt | src/buffer.cpp:224-258 | The packet at an offset from the first is read (no time-to-live) |
| SndBuffers.SndBuffer.AckData | src/buffer.cpp:260-270 | Exactly the first packets are released, the cursor keeps its packet |
| SndBuffers.SndBuffer.GetCurrBufSize | src/buffer.cpp:273-276 | The count is the number of queued packets |
| SndBuffers.WordRoundTrip | src/packet.cpp:328-344 | The boundary bits, order flag and number read from a message word are those addBuffer wrote |
| SndBuffers.WordFields | src/buffer.cpp:136-140 | The first packet's bit is the top one, the last packet's the next, the order bit the third, above 29 bits of number |
| Bytes.ChunksRoundTrip | src/buffer.cpp:127-134 | The packets a message is cut into concatenate to its bytes, and none is empty or too long |
| Bytes.ChunkCount | src/buffer.cpp:114-116 | There are as many as the quotient, and one more for a remainder |
| Bytes.ChunkAt | src/buffer.cpp:129-134 | Packet i holds the bytes from i * mss on |
| RcvBuffers.RcvBuffer.constructor | src/buffer.cpp:337-344 | A new receive buffer has empty slots only |
| RcvBuffers.RcvBuffer.AddData | src/buffer.cpp:360-375 | A packet is put, in its unit, at its offset behind the acknowledged ones and the unit counts as taken; when the slot is taken nothing changes but the furthest offset |
| RcvBuffers.RcvBuffer.AckData | src/buffer.cpp:453-461 | More slots count as acknowledged; no slot changes |
| RcvBuffers.RcvBuffer.ReadBuffer | src/buffer.cpp:377-412 | The bytes copied, the slots freed and the new notch are those of taking that many bytes off the acknowledged stream; the freed slots give their units back to the pool and no other cell changes its unit |
| RcvBuffers.RcvBuffer.UnitsHeld | src/buffer.cpp:360-412 | After any calls of the buffer's methods the pool's count is the number of units in use and of cells filled; every filled slot has its own unit, whose flag is the slot's, and no other cell of any buffer has it; a free unit is in none |
| RcvBuffers.RcvBuffer.Undisturbed | src/buffer.cpp:360-412 | What other buffers do with the pool leaves this one as it is |
| Bytes.ConsumePrefix | src/buffer.cpp:377-412 | A read returns the longest prefix of the unread bytes that fits, and leaves the rest |
| Bytes.ReadTwice | src/buffer.cpp:377-412 | Reading n and then m bytes is reading n + m |
| RcvBuffers.RcvBuffer.GetRcvDataSize | src/buffer.cpp:469-475 | The number of acknowledged unread slots is within the array |
| RcvBuffers.RcvBuffer.GetAvailBufSize | src/buffer.cpp:463-467 | The free size leaves one slot empty |
| RcvBuffers.RcvBuffer.LookAhead | src/buffer.cpp:549-567 | The look-ahead says whether the message at the read position is unread as far as it is acknowledged |
| RcvBuffers.RcvBuffer.SkipBad | src/buffer.cpp:538-580 | Exactly the acknowledged slots before the first readable message are dropped, and their units given back |
| SlotArrays.BadExact | src/buffer.cpp:538-580 | The slots dropped are those before the first acknowledged one that begins a readable message |
| SlotArrays.WholeExact | src/buffer.cpp:549-567 | A message is readable when its packets are unread up to the first that ends it, as far as they are acknowledged |
| RcvBuffers.RcvBuffer.FindMessage | src/buffer.cpp:582-637 | The scan finds the first slot that ends an eligible message and where that message begins; every slot before it ends none; when there is none it still reports one exactly when packets of one unfinished message fill all slots but one |
| RcvBuffers.RcvBuffer.ReadMsg | src/buffer.cpp:484-523 | Under the sender's framing the read hands over the slots of the first eligible message, freed with their units when acknowledged and marked when not, and the first bytes of it that fit; nothing else changes but dropped slots |
| RcvBuffers.RcvBuffer.GetRcvMsgNum | src/buffer.cpp:525-530 | The count is 1 exactly when a message is eligible or one unfinished message fills all slots but one; bad slots are dropped on the way |
| Messages.ReadReturns | src/buffer.cpp:484-638 | Every read returns one whole message not returned before, cut only by the caller's length, and an ordered one only when all before it is returned; or nothing, and then, unless the buffer looked empty, no message could be returned |
| Messages.NeverTwice | src/buffer.cpp:484-523 | Over every run of arrivals, acknowledgements and reads no packet is returned twice |
| Messages.InTurn | src/buffer.cpp:617-624 | An order-flagged message is returned only after events that returned everything before it |
| Messages.DropKeeps | src/buffer.cpp:538-580 | The slots dropped at the start of a scan are all of messages already returned |
| Messages.OverlooksExactly | src/buffer.cpp:534-536 | A read leaves behind a message it may return if and only if nothing is acknowledged, the furthest offset is 0, and the first slot holds an unread single-packet message not bound to order |
| Messages.Overlooked | src/buffer.cpp:534-536 | A run from an unused buffer by one arrival after which every read returns nothing though the message that arrived may be returned |
| Messages.CountsInVain | src/buffer.cpp:525-530 | A message is counted though a read returns none if and only if, once bad slots are dropped, the scan finds no eligible message and packets of one unfinished message fill all slots but one |
| Messages.CountedInVain | src/buffer.cpp:613-637 | A run from an unused buffer by two arrivals after which a message is counted and every read returns nothing |
| Messages.PostedFramed | src/buffer.cpp:127-146 | The packets of any messages sent one after the other are well framed |
| Messages.MessageIsPost | src/buffer.cpp:127-146 | A whole message in the queue is one that was sent and carries exactly its bytes |
| Messages.WholeOrNothing | src/core.cpp:1329-1420 | Each read of a run gives the first bytes that fit of one message sent, or nothing; when nothing, one that it may return is left behind exactly when the buffer hides it |
| Messages.AtMostOnce | src/core.cpp:1329-1420 | No message sent is given by two reads of a run |
| Messages.AfterEarlier | src/core.cpp:1223-1420 | A message sent with the order flag is given only after every message sent before it |
| AckWindows.AckWindow.constructor | src/window.cpp:48-61 | A new ACK history is empty |
| AckWindows.AckWindow.Store | src/window.cpp:70-81 | store appends to a queue of capacity size - 1 that drops its oldest record |
| AckWindows.AckWindow.Acknowledge | src/window.cpp:83-143 | acknowledge finds the first record with the number, in both layouts, returns its data ACK and age, and discards exactly it and all older ones; -1 and no change when there is none |
| AckWindows.StoredRecords | src/window.cpp:70-81 | On the ring's arrays a store is the bounded queue's |
| AckWindows.TakenRecords | src/window.cpp:100-106 | Moving the tail leaves exactly the newer records |
| SndEndpoints.SndEndpoint.constructor | src/core.cpp:757-775 | A connection starts with the numbers of the unbounded sender, twice the window as loss list |
| SndEndpoints.SndEndpoint.Send | src/core.cpp:1109-1118 | Queuing on the concrete buffer is Enqueue on the unbounded sender; the packets queued carry the framing and number of one message |
| SndEndpoints.SndEndpoint.PickLost | src/core.cpp:2295 | Taking from the array loss list is Pick |
| SndEndpoints.SndEndpoint.Resend | src/core.cpp:2297-2308 | Wrapped offset, test and block walk give exactly the packet Reread gives, with the message word it was queued with |
| SndEndpoints.SndEndpoint.CheckWindow | src/core.cpp:2335-2336 | The 32-bit window test decides as the unbounded one: one more packet fits the flow window and the congestion window |
| SndEndpoints.SndEndpoint.SendNew | src/core.cpp:2338-2343 | The new packet is the current block under the next number, with its message word; the state is Advance |
| SndEndpoints.SndEndpoint.PackData | src/core.cpp:2283-2403 | Uninterrupted, packData sends the least lost packet if any number is lost, else the next one; with it the unacknowledged packets are within both windows, and one that waits is held back only when they would not be |
| SndEndpoints.SndEndpoint.ProcessLiteAck | src/core.cpp:1987-1998 | A light ACK on wrapped numbers is TakeLiteAck: the right edge of the window stays |
| SndEndpoints.SndEndpoint.ProcessAck | src/core.cpp:2013-2030 | A full ACK on wrapped numbers is TakeAck, and is refused exactly when it passes current + 1 |
| SndEndpoints.SndEndpoint.LockAck | src/core.cpp:2032-2055 | Under the lock blocks and lost numbers before the ACK go, as in ReleaseAck; exactly the lost numbers at or above it are still lost |
| SndEndpoints.SndEndpoint.ProcessNak | src/core.cpp:2130-2186 | The index loop over the words of a report does what TakeNak does with its ranges, forged ones included |
| SndEndpoints.SndEndpoint.Expire | src/core.cpp:2638-2647 | The timer's insertion is Expire: with nothing lost, all that is sent and unacknowledged becomes lost |
| RcvEndpoints.RcvEndpoint.constructor | src/core.cpp:761-776 | A connection starts with the numbers of the unbounded receiver |
| RcvEndpoints.RcvEndpoint.ProcessData | src/core.cpp:2429-2467 | processData on wrapped numbers, slots, units and the array loss list is Store; it returns 0 exactly for a new number whose slot is in front of the last one and empty, and then loses and reports exactly the numbers leapt over |
| RcvEndpoints.RcvEndpoint.SendLiteAck | src/core.cpp:1764-1783 | A light ACK brings the first missing number, unless it is confirmed |
| RcvEndpoints.RcvEndpoint.SendAck | src/core.cpp:1764-1852 | The full ACK moves numbers, buffer and ACK history as Acknowledge; it goes out exactly when the first missing number is new, or unconfirmed and due, and advertises the free slots, at least 2 |
| RcvEndpoints.RcvEndpoint.ProcessAck2 | src/core.cpp:2104-2128 | An ACK of an ACK is TakeAck2, found by its wrapped number; a round trip is measured, and the number confirmed, exactly when a record of it was stored before now |
| RcvEndpoints.RcvEndpoint.ReportLoss | src/core.cpp:1886-1906 | The periodic report names lost numbers only, all of them if it has room |
| RcvEndpoints.RcvEndpoint.Recv | src/core.cpp:1209 | recv copies and frees what the unbounded receiver reads |
| RcvEndpoints.RcvEndpoint.RecvMsg | src/core.cpp:1361 | A message read changes the unbounded receiver by the packets it frees, and the slots as readMsg says |
| RcvEndpoints.RcvEndpoint.CountMsgs | src/core.cpp:1416 | Counting messages changes the unbounded receiver by the packets it drops, and answers as getRcvMsgNum |
| RcvEndpoints.RcvEndpoint.NextUnit | src/queue.cpp:998-1010 | A unit taken for the next packet is free, and taking one leaves the receiver as it is |
| ReceiveSide.FreedBytes | src/buffer.cpp:498-510 | Freeing whole packets at the front is reading just their bytes |
| Bytes.ConsumeWhole | src/buffer.cpp:377-412 | Reading as many bytes as the first packets hold finishes exactly these packets |
| Linkage.Link.constructor | src/core.cpp:757-776 | Both ends start in the initial state of the connection, the receiving one as a new buffer of the pool |
| Linkage.Link.Send | src/core.cpp:1109-1118 | send is one step of the connection model |
| Linkage.Link.PickLost | src/core.cpp:2295 | The first half of packData for a lost number is one step |
| Linkage.Link.Resend | src/core.cpp:2297-2308 | The second half, under the ACK lock, is one step and sends exactly the model's datagram |
| Linkage.Link.CheckWindow | src/core.cpp:2335-2336 | The window test is one step |
| Linkage.Link.SendNew | src/core.cpp:2338-2343 | Sending a new packet is one step and sends exactly the model's datagram |
| Linkage.Link.DeliverLiteAck | src/core.cpp:1987-1998 | A light ACK from the network is one step |
| Linkage.Link.DeliverAck | src/core.cpp:2000-2030 | A full ACK from the network is one step, with the ACK of it when it is time |
| Linkage.Link.LockAck | src/core.cpp:2032-2055 | Its part under the ACK lock is one step, with nothing assumed about the waiting number; exactly the lost numbers at or above it stay lost |
| Linkage.Link.DeliverNak | src/core.cpp:2130-2186 | A loss report from the network is one step |
| Linkage.Link.Timeout | src/core.cpp:2638-2647 | The retransmission timer is one step |
| Linkage.Link.DeliverData | src/core.cpp:2429-2467 | A data packet from the network, with its message word, is one step with its immediate loss report, or is dropped when the pool has no unit; it is kept exactly when it is new and its slot is in front of the last one |
| Linkage.Link.LiteTimer | src/core.cpp:1774-1783 | A light ACK timer is one step and sends exactly the model's datagram |
| Linkage.Link.AckTimer | src/core.cpp:1764-1852 | An ACK timer is one step and sends exactly the model's datagram |
| Linkage.Link.ReportLoss | src/core.cpp:1886-1906 | A periodic loss report is one step, taken exactly when something is lost |
| Linkage.Link.DeliverAck2 | src/core.cpp:2104-2128 | An ACK of an ACK from the network is one step, measured exactly when its record was stored before now |
| Linkage.Link.Recv | src/core.cpp:1209 | recv is one step and returns exactly the bytes that step delivers |
| Linkage.Link.RecvMsg | src/core.cpp:1361 | A message read is the step that reads the packets it frees, and changes the slots as readMsg says |
| Linkage.Link.CountMsgs | src/core.cpp:1416 | Counting messages is the step that reads the packets it drops |
| Linkage.Link.Genuine | src/core.cpp:2294-2348 | A data datagram on the network carries the bytes and the message word with which its number was queued |
| Linkage.WireStays | src/core.cpp:2294-2348 | What is queued later does not change the wire form of a datagram under way |
| Linkage.Link.Promise | src/core.cpp:2283-2468 | However the two concrete ends are driven, the bytes received are a prefix of those sent, and what is missing is in the sender's blocks |
| MsgLinkage.MsgLink.constructor | src/core.cpp:757-776 | A connection starts with no message sent and unused slots |
| MsgLinkage.MsgLink.SendMsg | src/core.cpp:1315 | sendmsg queues one more message under the next message number |
| MsgLinkage.MsgLink.DeliverData | src/core.cpp:2429-2437 | A data packet kept is one arrival in the run of the slots; one refused or dropped changes no slot |
| MsgLinkage.MsgLink.AckTimer | src/core.cpp:1764-1852 | An ACK timer is one acknowledgement in the run of the slots, by as many as the last ACK moves |
| MsgLinkage.MsgLink.RecvMsg | src/core.cpp:1337-1361 | A message read over the network is one read of the run, and gives what that read gives; nothing for a length of 0 |
| MsgLinkage.MsgLink.CountMsgs | src/core.cpp:1416 | Counting messages is one count of the run |
| MsgLinkage.MsgLink.Undisturbed | src/core.cpp:1972-2184 | A step that touches neither slots nor queued packets leaves the run as it is |
| MsgLinkage.MsgLink.InOrder | src/buffer.cpp:484-638 | Whatever was called, the slots hold genuine packets in the sender's framing, as readMsg requires |
| MsgLinkage.MsgLink.Promise | src/core.cpp:1223-1420 | Whatever was called, in whatever order and whatever the network did, what the user got is told by a run over the messages sent: each read whole or nothing, each message at most once, ordered ones after all before |
| Linkage.FreshIsTimely | src/core.cpp:2300-2302 | With windows that fit the threshold, every packet and ACK not yet overtaken by the sender's data ACK can be compared on the wire |
| Heaps.WithoutOrdered | src/queue.cpp:407-433 | Removal keeps the heap order if and only if the entry that takes the place is not due before the parent there (or is last, or the place is the root) |
| Heaps.WithoutCanFail | src/queue.cpp:407-433 | A removal that breaks the order |
| Heaps.AddedKeeps | src/queue.cpp:355-384 | Insertion adds exactly the entry and keeps the order |
| Heaps.WithoutSame | src/queue.cpp:407-433 | Removal takes away exactly the entry |
| Heaps.RootRunsOrdered | src/queue.cpp:282-336 | In runs that remove and reschedule only the root, the order always holds |
| Heaps.RootLeast | src/queue.cpp:345-353 | In an ordered heap nothing is due before the root |
| SendLists.SndUList.Insert | src/queue.cpp:255-280 | insert grows a full array and puts the node on the heap with an exact place |
| SendLists.SndUList.Insert_ | src/queue.cpp:355-401 | insert_ moves the node up, keeps every back-pointer exact and the other nodes; a node already there is left alone |
| SendLists.SndUList.Remove_ | src/queue.cpp:403-442 | remove_ takes the node off, moves the last one down in its place, and keeps every other back-pointer exact |
| SendLists.SndUList.Update | src/queue.cpp:282-304 | After update the node is on the heap, at its place; when it was absent or is rescheduled it has one entry, due at time 1, in place of any other, and no other entry comes or goes |
| SendLists.UpdatedSame | src/queue.cpp:282-304 | What an update does to the multiset of entries |
| SendLists.UpdatedMoves | src/queue.cpp:282-304 | An update of an absent node or of the root is a move of the runs that keep the order; any other keeps it if the removal does |
| SendLists.SndUList.PopDue | src/queue.cpp:306-319 | pop takes the root exactly when it is due |
| SendLists.SndUList.GetNextProcTime | src/queue.cpp:345-353 | The time returned is the root's, and the least when the heap is ordered |
| TimerLists.RcvUList.Insert | src/queue.cpp:582-601 | insert links the node at the end with the present time; the list stays well linked and sorted |
| TimerLists.RcvUList.Remove | src/queue.cpp:603-632 | remove unlinks exactly the node, wherever it is |
| TimerLists.RcvUList.Update | src/queue.cpp:634-662 | update moves the node to the end with the present time; the list stays well linked and sorted |
| TimerLists.RcvUList.Scan | src/queue.cpp:1061-1087 | The scan ends; exactly the nodes that waited too long were visited, the dead are gone and the others at the end, and nobody left has waited that long |
| TimerLists.AliveSplit | src/queue.cpp:1066-1086 | Of the nodes visited those not dead are kept, each as often and in the same order |
| UnitPools.UnitPool.constructor | src/queue.cpp:85-125 | A new pool is one chunk of free units |
| UnitPools.UnitPool.Take | src/buffer.cpp:370-374 | Storing a packet takes a free unit into an empty cell; count, ownership and what every cell shows stay exact |
| UnitPools.UnitPool.Free | src/buffer.cpp:394-397 | Finishing a packet gives its unit back; count, ownership and what every cell shows stay exact |
| UnitPools.UnitPool.Mark | src/buffer.cpp:512-513 | Reading a message early keeps its units in use, marked, and no other |
| UnitPools.UnitPool.DestroyBuffer | src/buffer.cpp:346-358 | Destroying a buffer frees exactly the units it held |
| UnitPools.UnitPool.Increase | src/queue.cpp:127-186 | The recount finds the count exact; a chunk is added unless the pool is less than nine tenths full |
| UnitPools.UnitPool.GetNextAvailUnit | src/queue.cpp:194-223 | The unit returned is free and in no buffer; none is returned only when the pool is full, or every free unit is the last of its chunk or before the starting place of the chunk where the search starts |
| UnitPools.Missed | src/queue.cpp:199-217 | A unit that the search does not look at is the last of its chunk, or lies before the starting place in the chunk where it starts |
| UnitPools.OneCell | src/buffer.cpp:360-375 | No unit lies in two cells, and a free unit in none |
| Md5.Md5State.constructor | src/md5.cpp:313-320 | The registers as the source writes them are those of RFC 1321, and the message is empty |
| Md5.Md5State.ProcessBlock | src/md5.cpp:199-309 | The 64 operations on registers updated in place, with their own words, turns and constants, and the final additions, are the block function of RFC 1321 in its table form |
| Md5.Round1 | src/md5.cpp:199-224 | The 16 operations of the first round are its steps |
| Md5.Round2 | src/md5.cpp:225-250 | The 16 operations of the second round are its steps |
| Md5.Round3 | src/md5.cpp:251-276 | The 16 operations of the third round are its steps |
| Md5.Round4 | src/md5.cpp:277-301 | The 16 operations of the fourth round are its steps |
| Md5.AbcDigest | src/md5.cpp:199-381 | The digest of the message abc is the value listed in section A.5 of RFC 1321 |
| Md5.Md5State.Append | src/md5.cpp:323-358 | After any append of less than 2^28 bytes the registers are the block function folded over the whole blocks of the message so far, the buffer holds the tail and the counter the length in bits |
| Md5.Md5State.Finish | src/md5.cpp:361-381 | The digest is the one RFC 1321 defines over the padded whole message |
| Md5.HashParts | src/md5.cpp:313-381 | Any division of a message into appends gives the same digest |
| Md5.FoldAppend | src/md5.cpp:351-353 | Folding over a whole number of blocks and then the rest is folding over all |
| Md5.PaddedWhole | src/md5.cpp:375-378 | Padding ends on a block boundary |
| Md5.LengthBytes | src/md5.cpp:372-374 | The eight bytes written from the two counter words are the length in bits modulo 2^64 |
| Md5.CountMore | src/md5.cpp:333-337 | The two counter words with their carry hold the length in bits |

## Left out

- Handshake, options, sockets, threads, condition variables, epoll and the channel: a connection is modelled from its established state.
- Congestion control and rate estimates: they feed no safety property; the window is an arbitrary number.
- Message time to live and drop requests, the -1 result of the offset read and the range form of the receiver list's remove, which only they use.
- File transfer and `addBufferFromFile`; `readBufferToFile` repeats `readBuffer`.
- The counters, traces and time stamps that no decision depends on; RTT values; the connection's death after repeated time-outs.
- `CCache` and the hash tables of sockets.
- Torn reads between threads of the flow window and the last ACK, which the source updates together without a lock.
- Memory: block contents are sequences, not pieces of one allocation; allocation failure is not modelled.
- RcvBuffers.RcvBuffer.ReadMsg: requires the sender's framing of packets next to each other, which MsgLinkage proves of every connection; the scan itself, FindMessage, does not.
- MsgLinkage.MsgLink.RecvMsg: one read; recvmsg's waiting, time-outs and exceptions around it are not modelled.
- SndBuffers.SndBuffer.ReadAt: messages never expire, so the -1 result for one that has is not modelled.
- UnitPools.UnitPool.GetNextAvailUnit: chunks are sequences of flags in list order rather than linked records.
- SendLists.SndUList.PopDue: ends where the source packs a packet and inserts the node again with its next time, which is Insert_.
- SendLists.SndUList.Update: requires room in the array, since the source does not grow it there.
- TimerLists.RcvUList.Scan: whether a socket is dead is given for the whole scan, and the clock reading is at least the waiting time.
- Md5.Md5State.Append: messages are appended in pieces below 2^28 bytes; beyond that the source's bit count overflows.
- SndEndpoints.SndEndpoint.PackData: packet pacing and probing pairs are not modelled.
- Linkage.Link.DeliverAck: whether it is time for an ACK of the ACK is given; the clock and the last such ACK are not modelled.

# Verified models of the MAVwork proxies

MAVwork gives applications one interface to several drones. A proxy runs beside each drone
and does the delicate work: it decides which client may steer, keeps a connection alive over
UDP, filters measurements, closes control loops, decides when the motors may stop, and talks
to a microcontroller that stores records in its own flash. This project models that work in
Dafny, one module per component, and proves what the components promise.

| file | component | main results |
|---|---|---|
| `Dycs.dfy` | commander arbitration, command gate | there is a commander exactly when somebody asks for command; a lost commander is succeeded by the best of the others; three complete rounds of requests always settle on the best candidate, two do not |
| `Rdcp.dfy` | datagram transport, its header and buffers | at most once, in order, with the right payload over a network that loses, repeats and reorders, as long as the 64-bit counter has not wrapped; what arrives new is accepted and read once; when a connection faults, exactly |
| `AcceptQueue.dfy` | accept queue of the transport server | conservation of clients; who is admitted and by which call served; which clients a lost signal strands, and how many |
| `FlashLog.dfy`, `Masks.dfy` | record log in NOR flash | the log refines a sequence; the halving search finds the first free slot in exactly floor(log2 n) halvings for every n |
| `Crc16.dfy` | frame check of the serial link | the shift form is bit-serial division; every burst of up to 16 bits is detected at every message length, and 17 is too long |
| `LockGroups.dfy` | locking of several groups at once | deadlock freedom if and only if no Lockable of a group is shared between threads; every call finishes |
| `Filters.dfy` | circular-history filter, complementary pair | the filter solves its difference equation, which has one solution and is linear; the pair is exact |
| `Pid.dfy` | PID controller | the control law and the anti-windup bound over every run; the derivative smoothing is a convex combination |
| `FlightModes.dfy` | flight mode machine, climb controller | the motors stop only after a timed landing, whichever packets fail; when a take-off and a landing go on, exactly |
| `Trajectory.dfy` | cyclic waypoint search | the first waypoint that is not near; none is skipped over a mission |
| `VideoSync.dfy` | resynchronisation of the video stream | where repeated attempts lock onto the stream, exactly |

`Wrappers.dfy` and `Memory.dfy` hold what the modules share.

## How the models are built

An object whose methods change its fields is a class with those fields. Where a property is
about runs, each method is tied by its contract to a function on values (`View` gives the value
of an object), and the run is modelled and reasoned about on those values. Threads that work
under a mutex are atomic steps, taken in any order. Time, what the network delivers, how `recv`
splits a stream, whether a packet can be sent, and what other threads did meanwhile are
parameters. `float` and `double` are reals. Shifts and masks by powers of two on addresses,
headers and signatures are written with `/` and `%`; in `Crc16` the registers are bit vectors
and in `FlashLog` the header's address masks are applied bit by bit.

Where the code differs from its comments or from what one would expect, the model follows the
code, and the member named says what then holds:

- `RdcpServer.h:31` declares `acceptSemaphore` as a `cvgCondition`, a flag, and not as a
  `cvgSemaphore`. Signals that come while the flag is up are lost. `AcceptQueue` models the
  same code with either: `AcceptQueue.EmptyHanded` and `AcceptQueue.Conservation`.
- `DynamicBuffer::copy` (`Buffer.h:74-78`) never shrinks a buffer, so a message shorter than an
  earlier one is sent with the tail of the longer one: `Rdcp.LastWriteIsSent`.
- `IConnectedSocket` does not initialise its state, and its guard refuses DISCONNECTED unless
  the state is DISCONNECTING: `Rdcp.RdcpSocket.constructor`.
- `RdcpProtocol.h:19` comments the server's signature as 0xFEED; the constant is 0x7EED, and a
  client accepts both: `Rdcp.RdcpSocket.Inspect`.
- `RdcpServer::gotEvent` erases by address, so the second event of a dead socket erases the
  connection that replaced it: `AcceptQueue.EvictsIff` says in which runs, exactly.
- A request is arbitrated even if its connection has just been lost: `Dycs.LateRequest` and
  `Dycs.LostCommanderStays`.
- A failover leaves the old commander's priority in place (`DycsServer.hh:75` and `:115`):
  `Dycs.TwoRoundsDoNotSuffice`.
- `ee_readn` admits an index equal to the capacity: `FlashLog.Eeprom.ReadN` says so.
- The sign tests of the PID anti-windup bound the integral term exactly for non-negative
  gains: `Pid.BoundedIffGainNotNegative`.
- `EMERGENCY_MODE_ENABLE` is not defined (`Linkquad_Autopilot.cpp:13`), so EMERGENCYSTOP is no
  command of the mode machine, and HOVERING has no height limit, unlike FLYING:
  `FlightModes.CommandsObeyed` and `FlightModes.ReferenceBounds`.
- `syncFrame` misses a signature whose first byte ends a window
  (`VideoChannel.cpp:152`): `VideoSync.LocksOntoFirst`.
- `Trajectory::clear` keeps the current index, so a new circle with too few waypoints leaves
  `update` out of bounds: `Trajectory.Trajectory.GenerateXYCircle`.
- The previous waypoint of a trajectory is never set: `Trajectory.Trajectory.Update` returns the
  waypoint's own speed.

## Model

| member | source | states |
|---|---|---|
| Dycs.ParseHeader | proxies/LinkQuad/include/comm/session/cvg/DycsProtocol.h:17-22 | the one-byte header splits without loss into a three-bit mode and a priority above it; command is asked for by mode 0 alone |
| Dycs.Best | proxies/LinkQuad/sources/DycsServer.hh:83-100 | the pick of a failover is an eligible client of least priority number, or nobody if none is eligible |
| Dycs.BestIsFirst | proxies/LinkQuad/sources/DycsServer.hh:88-98 | among equals the client accepted first is picked |
| Dycs.RequestKeepsInv | proxies/LinkQuad/sources/DycsServer.hh:59-81 | a request keeps the arbitration invariant, whatever mode and priority it brings |
| Dycs.DisconnectKeepsInv | proxies/LinkQuad/sources/DycsServer.hh:110-118 | so does the loss of any client, the commander included |
| Dycs.LateRequest | proxies/LinkQuad/sources/DycsServer.hh:59-81 | a request that races with the loss of its connection breaks the invariant if and only if it takes the command, and changes nothing otherwise |
| Dycs.LostCommanderStays | proxies/LinkQuad/sources/DycsServer.hh:61-77 | a commander that is no client any more stays over every run in which nobody asks with a lower number, and no command gets through |
| Dycs.InvOverRuns | proxies/LinkQuad/sources/DycsServer.hh:39-119 | over every run of accept, request and disconnect there is a commander exactly if a connected client has asked for command, and then it is such a client |
| Dycs.FailoverOnLoss | proxies/LinkQuad/sources/DycsServer.hh:83-118 | when the commander is lost, the other client that asks for command with the least priority number takes over, the first listed among equals, or nobody exactly if nobody else asks; the loss of anybody else changes nothing, and the stored priority stays as it is |
| Dycs.FailoverOnResignation | proxies/LinkQuad/sources/DycsServer.hh:74-100 | the same when the commander asks for anything but command |
| Dycs.RoundSettles | proxies/LinkQuad/sources/DycsServerConn.hh:33-37 | after one complete round the recorded requests are the current ones |
| Dycs.RoundSyncs | proxies/LinkQuad/sources/DycsServer.hh:62-77 | after a second round the stored priority is the commander's own, which a failover had broken |
| Dycs.RoundMinimises | proxies/LinkQuad/sources/DycsServer.hh:63-70 | a third round brings the least priority number among the clients that want command |
| Dycs.Stabilises | proxies/LinkQuad/sources/DycsServer.hh:59-100 | from every state the invariant allows, three complete rounds in any order with any repetition put a best candidate in command, or nobody if nobody wants it, and no later request changes anything |
| Dycs.TrioReachable | proxies/LinkQuad/sources/DycsServer.hh:39-81 | the start of the counterexample below is reached by a run from an empty server |
| Dycs.TwoRoundsDoNotSuffice | proxies/LinkQuad/sources/DycsServer.hh:74-76 | from that reachable state two complete rounds leave a client in command that another one outranks |
| Dycs.OnlyRequestsForCommand | proxies/LinkQuad/sources/DycsServerConn.hh:37-40 | in every run nothing gets through but what came in a request for command |
| Dycs.CommandHeld | proxies/LinkQuad/sources/NavigationServer.hh:36-47 | over every run in which the commander keeps asking, is not outranked and stays connected, its commands all get through in order and nobody else's do |
| Dycs.DycsServerConn.constructor | proxies/LinkQuad/sources/DycsServerConn.hh:13-19 | a new connection has asked for nothing |
| Dycs.DycsServerConn.ReadOrPeek | proxies/LinkQuad/sources/DycsServerConn.hh:29-45 | a complete packet is recorded and arbitrated first, whether or not its connection is still listed; the payload reaches the caller's buffer exactly if that leaves its sender in command; a shorter packet changes nothing |
| Dycs.DycsServer.constructor | proxies/LinkQuad/sources/DycsServer.hh:17-21 | a new server has no client, no commander and priority 0 |
| Dycs.DycsServer.Accept | proxies/LinkQuad/sources/DycsServer.hh:39-50 | a new client joins the end of the list and the invariant is kept; without one nothing changes and null is returned |
| Dycs.DycsServer.IsCommander | proxies/LinkQuad/sources/DycsServer.hh:52-57 | true exactly for the commander, never for a null pointer |
| Dycs.DycsServer.FindAnotherCommander | proxies/LinkQuad/sources/DycsServer.hh:83-100 | the loop over the client list computes the pick specified by Best |
| Dycs.DycsServer.NotifyAccessModeRequest | proxies/LinkQuad/sources/DycsServer.hh:59-81 | a request for command is granted to anybody if there is no commander and otherwise to a lower number than the stored one; the stored number follows the commander's requests; a commander that resigns is succeeded by the first of the others in priority |
| Dycs.DycsServer.GotDisconnected | proxies/LinkQuad/sources/DycsServer.hh:102-119 | a lost client leaves the list and the others keep their order; a lost commander is succeeded by the other client of least priority number, the first listed among equals, or by nobody exactly if nobody else asks for command; the invariant is kept |
| Dycs.NavigationServer.ManageClient | proxies/LinkQuad/sources/NavigationServer.hh:36-47 | a command is handed on exactly if a complete packet leaves its own sender in command, and then it is that packet's payload |
| Rdcp.HeaderRoundTrip | proxies/LinkQuad/sources/RdcpProtocol.cpp:13-27 | decoding an encoded header gives it back, for every value of the four fields |
| Rdcp.WireRoundTrip | proxies/LinkQuad/sources/RdcpProtocol.cpp:13-27 | encoding a decoded header gives the twelve bytes back |
| Rdcp.HeaderFor | proxies/LinkQuad/sources/RdcpSocket.hh:110-113 | the 64-bit counter survives being cut in two halves and joined again, and signature and port are the ones given |
| Rdcp.Encode | proxies/LinkQuad/sources/RdcpProtocol.cpp:13-27 | every field is on the wire at its place, with its high byte first |
| Rdcp.Overlay | proxies/LinkQuad/include/data/Buffer.h:74-78 | a copy leaves exactly the new bytes if and only if nothing longer was in the buffer |
| Rdcp.LastWriteIsSent | proxies/LinkQuad/include/data/Buffer.h:60-78 | after any writes the buffer holds exactly the last one if and only if none before it was longer |
| Rdcp.WritesReachTheWire | proxies/LinkQuad/sources/RdcpSocket.hh:104-108 | the next packet after some writes carries their overlay |
| Rdcp.DynamicBuffer.Resize | proxies/LinkQuad/include/data/Buffer.h:60-68 | the size changes; a size that the memory holds keeps the memory and every old byte within it, a larger one takes new memory |
| Rdcp.DynamicBuffer.Copy | proxies/LinkQuad/include/data/Buffer.h:74-78 | from the offset on the buffer holds the overlay, and it never gets shorter |
| Rdcp.NoShortcut | proxies/LinkQuad/sources/IConnectedSocket.cpp:27-40 | under any series of requests a socket comes back to CONNECTED only through CONNECTING, and to DISCONNECTED only through DISCONNECTING |
| Rdcp.GrantedExactly | proxies/LinkQuad/sources/IConnectedSocket.cpp:27-40 | in every series of requests the two guarded ones are granted from one state each, and all others from everywhere |
| Rdcp.OwnPacketsRejected | proxies/LinkQuad/sources/RdcpSocket.hh:140-143 | a packet that returns to its own sender is an error |
| Rdcp.PeerPacketJudged | proxies/LinkQuad/sources/RdcpSocket.hh:135-148 | a packet of the peer is judged by its index alone and gives its payload; an empty payload is an error |
| Rdcp.FaultExactly | proxies/LinkQuad/sources/RdcpSocket.hh:150-175 | a connection faults exactly if forty errors come before any packet is accepted or five since the last accepted one, stale packets neither counting nor clearing; until then it is connected exactly if a packet was accepted |
| Rdcp.DeliverKeepsInv | proxies/LinkQuad/sources/RdcpSocket.hh:145-181 | the delivery of any packet ever sent, however late or often, keeps the order and the payloads of what was accepted and read |
| Rdcp.RunKeepsInv | proxies/LinkQuad/sources/RdcpSocket.hh:101-191 | so does every run of writes, sends, failed sends, deliveries, noise, reads, connects, disconnects and faults |
| Rdcp.AtMostOnceInOrder | proxies/LinkQuad/sources/RdcpSocket.hh:101-182 | from two new sockets, in every run of writes, sends, failed sends, deliveries in any order and number, noise, reads, connects, disconnects and faults that stays within 64 bits, the packets accepted since the last connect have strictly increasing indices and the payloads sent under them, and so do the messages read |
| Rdcp.Delivered | proxies/LinkQuad/sources/RdcpSocket.hh:145-182 | after every run of two new sockets within 64 bits that leaves the receiver listening, every packet sent that is not empty and newer than the last accepted is accepted when it arrives; the next read gives as many of its bytes as asked for, all of them unless a longer message was left over, and a second read gives nothing |
| Rdcp.FailedSendRetries | proxies/LinkQuad/sources/RdcpSocket.hh:104-122 | after a failed send the next packet is the very one that was lost |
| Rdcp.DeafUntilConnect | proxies/LinkQuad/sources/RdcpSocket.hh:93-99 | after a disconnect or a fault no run without a connect accepts a packet or gives anything to the application |
| Rdcp.InOrderIffNoWrap | proxies/LinkQuad/sources/RdcpSocket.hh:101-182 | all runs with at most n packets keep order and payloads if and only if n is at most 2^64 |
| Rdcp.WrapReached | proxies/LinkQuad/sources/RdcpSocket.hh:116 | a run of two new sockets that sends 2^64 + 1 packets and connects anew accepts an older packet after the newest, under an index that was first another payload's |
| Rdcp.BeaconRun | proxies/LinkQuad/sources/RdcpSocket.hh:104-116 | a sender left alone repeats its payload under one index after the other, for any number of packets |
| Rdcp.WrapBreaksOrder | proxies/LinkQuad/sources/RdcpSocket.hh:116 | from every state with more than 2^64 packets sent and a receiver that has just connected, an older packet can be accepted after a newer one |
| Rdcp.WrapSilences | proxies/LinkQuad/sources/RdcpSocket.hh:146 | after the last index before the wrap no packet is ever accepted again |
| Rdcp.RdcpSocket.constructor | proxies/LinkQuad/sources/RdcpSocket.hh:29-45 | a new socket has one payload waiting; its state is DISCONNECTED only if the memory happened to allow it |
| Rdcp.RdcpSocket.SetConnectionState | proxies/LinkQuad/sources/IConnectedSocket.cpp:27-40 | the guard is obeyed, and an event is notified exactly for a change |
| Rdcp.RdcpSocket.Connect | proxies/LinkQuad/sources/RdcpSocket.hh:47-65 | the receiver is reset but keeps its old buffer; the sender keeps its counter and payload |
| Rdcp.RdcpSocket.Disconnect | proxies/LinkQuad/sources/RdcpSocket.hh:93-99 | every state but DISCONNECTING ends up DISCONNECTED, and both changes are notified |
| Rdcp.RdcpSocket.SetFaultState | proxies/LinkQuad/sources/RdcpSocket.hh:280-292 | FAULT is entered from every state and waiting readers are released |
| Rdcp.RdcpSocket.SenderRun | proxies/LinkQuad/sources/RdcpSocket.hh:101-124 | a live socket sends the waiting payload, or repeats the last one, under the next index; a failed send faults and does not use the index up |
| Rdcp.RdcpSocket.Inspect | proxies/LinkQuad/sources/RdcpSocket.hh:135-145 | an error is a datagram without payload or with a foreign signature; a client takes 0x7EED and 0xFEED, a server 0xC0DE |
| Rdcp.RdcpSocket.ReceiverRun | proxies/LinkQuad/sources/RdcpSocket.hh:126-191 | a datagram changes the receiver as specified; a client redirects its packets to the first answerer exactly if the signature lets it |
| Rdcp.RdcpSocket.WritePayload | proxies/LinkQuad/sources/RdcpSocket.hh:234-240 | nothing is written when not connected, too long a message is refused, anything else replaces the payload |
| Rdcp.RdcpSocket.Read | proxies/LinkQuad/sources/RdcpSocket.hh:250-273 | a message that waits is read, cut to the length asked for, and only once; an unconnected or faulted socket, or one without a message, gives nothing |
| AcceptQueue.Least | proxies/LinkQuad/sources/RdcpServer.hh:72 | accept takes the pending client of least address |
| AcceptQueue.StepKeepsInv | proxies/LinkQuad/sources/RdcpServer.hh:58-155 | every step keeps pending and accepted addresses apart, the queue within its limit and the signals consistent, and changes the number of pending clients as it should |
| AcceptQueue.InvOverRuns | proxies/LinkQuad/sources/RdcpServer.hh:58-155 | so does every run |
| AcceptQueue.Conservation | proxies/LinkQuad/sources/RdcpServer.hh:65-82 | every client admitted is served or waiting, and the stranded ones are exactly as many as the signals that fell together |
| AcceptQueue.EmptyHanded | proxies/LinkQuad/include/comm/transport/cvg/RdcpServer.h:31 | over every run of a new server: with a counting semaphore accept fails only on an empty queue; with the condition it fails although somebody waits exactly if as many signals were lost as clients are waiting |
| AcceptQueue.StrandedStay | proxies/LinkQuad/sources/RdcpServer.hh:112-118 | stranded clients are served in no run in which nobody new is admitted, whatever is called and whichever connections end |
| AcceptQueue.StrandedBelowLimit | proxies/LinkQuad/sources/RdcpServer.hh:113-117 | a limited queue always strands fewer clients than it holds |
| AcceptQueue.BurstStrands | proxies/LinkQuad/sources/RdcpServer.hh:65-117 | n clients that come together leave n - 1 stranded, for every n the queue admits |
| AcceptQueue.ArrivalExactly | proxies/LinkQuad/sources/RdcpServer.hh:112-118 | a client that is neither accepted nor pending joins the queue and is signalled exactly if there is room, whoever else is connected; any other packet changes nothing |
| AcceptQueue.ServedByRank | proxies/LinkQuad/sources/RdcpServer.hh:65-82 | with a counting semaphore every waiting client is accepted when those before it have been, and not sooner |
| AcceptQueue.WaitsItsTurn | proxies/LinkQuad/sources/RdcpServer.hh:65-118 | in every run of a new server, an unknown client that finds room in the queue is accepted by the k-th call that follows exactly if fewer than k of those waiting have lower addresses, with a counting semaphore; with the condition exactly if none has, however often accept is called |
| AcceptQueue.EntryStays | proxies/LinkQuad/sources/RdcpServer.hh:72-82 | an accepted entry stays, with its own socket, until there is an event at its address |
| AcceptQueue.EntryComesFrom | proxies/LinkQuad/sources/RdcpServer.hh:72-82 | every accepted entry is the one of the last acceptance at its address, with no event there since |
| AcceptQueue.EvictsIff | proxies/LinkQuad/sources/RdcpServer.hh:136-155 | in every run, a step erases the entry of a socket other than its own if and only if it is an event of a socket whose address was accepted again later, with no event at that address since |
| AcceptQueue.EntriesSafe | proxies/LinkQuad/sources/RdcpServer.hh:136-155 | if no socket has an event after its address was accepted again, every accepted entry is erased by its own socket alone |
| AcceptQueue.SecondEventEvictsSuccessor | proxies/LinkQuad/sources/RdcpServer.hh:141-147 | such a run exists: the second event of a dead socket erases the connection that replaced it, and its client is accepted a third time |
| AcceptQueue.CvgCondition.Signal | lib/atlante/atlante/include/cvgCondition.h:63-66 | the flag is raised |
| AcceptQueue.CvgCondition.TimedWait | lib/atlante/atlante/include/cvgCondition.h:40-61 | the wait succeeds exactly if the flag was or is raised before the timeout, and leaves it down |
| AcceptQueue.CvgSemaphore.Signal | lib/atlante/atlante/include/cvgSemaphore.h:63-66 | the count goes up by one |
| AcceptQueue.CvgSemaphore.TimedWait | lib/atlante/atlante/include/cvgSemaphore.h:40-61 | no signal is lost: the count after is the count before plus the signals that came in, less one exactly if the wait succeeded |
| AcceptQueue.RdcpServer.Accept | proxies/LinkQuad/sources/RdcpServer.hh:58-97 | an open server with a signal serves the pending client of least address, without one nobody; the signal is used up; a closed one raises an error and changes nothing |
| AcceptQueue.RdcpServer.RunOnce | proxies/LinkQuad/sources/RdcpServer.hh:99-121 | a full header with the client's signature from an unknown address joins the queue with its response port if there is room, and raises the signal; anything else changes nothing |
| AcceptQueue.RdcpServer.GotEvent | proxies/LinkQuad/sources/RdcpServer.hh:136-155 | a change to DISCONNECTED or FAULT erases the accepted entry of that address, nothing else does |
| FlashLog.LogDetermined | proxies/Pelican/AutoPilot_HL_SDK/LPC2k_ee.h:156-174 | the bytes of the flash determine the log |
| FlashLog.MasksMatchHeader | proxies/Pelican/AutoPilot_HL_SDK/LPC2k_ee.h:137-162 | the header's masks are differences of powers of two, in every valid combination of its table |
| Masks.MaskKeepsBits | proxies/Pelican/AutoPilot_HL_SDK/LPC2k_ee.c:161-175 | a bitwise AND with such a mask cuts an address at the page size and the record size |
| FlashLog.Log2IsFloor | proxies/Pelican/AutoPilot_HL_SDK/LPC2k_ee.c:357-372 | the number of halvings is the binary logarithm rounded down |
| FlashLog.FillAppends | proxies/Pelican/AutoPilot_HL_SDK/LPC2k_ee.c:159-180 | filling the first free slot and no other byte appends to the log |
| FlashLog.Eeprom.constructor | proxies/Pelican/AutoPilot_HL_SDK/LPC2k_ee.h:137-162 | every valid combination of page, record and region sizes is representable |
| FlashLog.Eeprom.DropOne | proxies/Pelican/AutoPilot_HL_SDK/LPC2k_ee.c:359-366 | the odd branch gives up one slot at the end that cannot hold the boundary |
| FlashLog.Eeprom.FindMiddle | proxies/Pelican/AutoPilot_HL_SDK/LPC2k_ee.c:358-366 | after an odd number of slots is made even the middle is a slot boundary, with the first free slot still inside |
| FlashLog.Eeprom.Locate | proxies/Pelican/AutoPilot_HL_SDK/LPC2k_ee.c:349-374 | the first free slot is found, or -1 if there is none, for every number of slots, in exactly floor(log2 n) halvings when the search is entered |
| FlashLog.Eeprom.ProgramPage | proxies/Pelican/AutoPilot_HL_SDK/LPC2k_ee.c:174-180 | programming can only clear bits, in one page |
| FlashLog.Eeprom.Compare | proxies/Pelican/AutoPilot_HL_SDK/LPC2k_ee.c:182-187 | the comparison succeeds exactly if the bytes agree |
| FlashLog.Eeprom.Erase | proxies/Pelican/AutoPilot_HL_SDK/LPC2k_ee.c:68-99 | whatever the flash held, the log is empty |
| FlashLog.Eeprom.PageOfSlot | proxies/Pelican/AutoPilot_HL_SDK/LPC2k_ee.c:161-175 | every slot lies in one page, at the place the masks compute |
| FlashLog.Eeprom.ProgramSlot | proxies/Pelican/AutoPilot_HL_SDK/LPC2k_ee.c:159-180 | programming a buffer of 0xFF but for the record fills the slot and changes no other byte |
| FlashLog.Eeprom.Write | proxies/Pelican/AutoPilot_HL_SDK/LPC2k_ee.c:147-194 | the record is appended and every other byte of the flash preserved, or the log is full and nothing changes |
| FlashLog.Eeprom.Read | proxies/Pelican/AutoPilot_HL_SDK/LPC2k_ee.c:229-244 | the address returned holds the newest record; an empty log is reported |
| FlashLog.Eeprom.ReadN | proxies/Pelican/AutoPilot_HL_SDK/LPC2k_ee.c:276-284 | an index below the count gives the address of that record; the index equal to the capacity is admitted and points past the region |
| FlashLog.Eeprom.Count | proxies/Pelican/AutoPilot_HL_SDK/LPC2k_ee.c:312-319 | the number of records |
| FlashLog.AppendsFill | proxies/Pelican/AutoPilot_HL_SDK/LPC2k_ee.c:155-157 | a series of writes fills up and then loses the rest |
| FlashLog.SinceLastErase | proxies/Pelican/AutoPilot_HL_SDK/LPC2k_ee.c:68-194 | after any history, an erase and any writes leave exactly the first of the records written, as many as fit |
| FlashLog.Replay | proxies/Pelican/AutoPilot_HL_SDK/LPC2k_ee.c:68-194 | every run of erases and writes on the flash follows the sequence |
| Crc16.Crc16 | proxies/Pelican/AutoPilot_HL_SDK/uart.c:728-740 | the loop computes the bit-serial checksum of the first bytes from the start value |
| Crc16.ByteIsEightSteps | proxies/Pelican/AutoPilot_HL_SDK/uart.c:719-726 | the shift form of one byte equals eight steps of the reflected division by 0x8408 |
| Crc16.ShiftFormIsBitSerial | proxies/Pelican/AutoPilot_HL_SDK/uart.c:719-740 | and so for every byte string and start value |
| Crc16.UpdateLinear | proxies/Pelican/AutoPilot_HL_SDK/uart.c:719-726 | one update is linear over exclusive or |
| Crc16.UpdateInjective | proxies/Pelican/AutoPilot_HL_SDK/uart.c:719-726 | no two registers merge on the same byte |
| Crc16.FoldLinear | proxies/Pelican/AutoPilot_HL_SDK/uart.c:734-738 | the checksum of a difference is the difference of the checksums |
| Crc16.FoldInjective | proxies/Pelican/AutoPilot_HL_SDK/uart.c:734-738 | a difference once there never fades |
| Crc16.CollideIffDifferenceVanishes | proxies/Pelican/AutoPilot_HL_SDK/uart.c:728-740 | two messages of one length collide exactly if their difference folds to zero |
| Crc16.Localise | proxies/Pelican/AutoPilot_HL_SDK/uart.c:728-740 | whether a local difference vanishes depends neither on its place nor on the length |
| Crc16.BurstDetected | proxies/Pelican/AutoPilot_HL_SDK/uart.c:728-740 | every error burst of at most sixteen bits is detected, at every length and place |
| Crc16.AdjacentBytesDetected | proxies/Pelican/AutoPilot_HL_SDK/uart.c:728-740 | messages that differ only inside two adjacent bytes have different checksums |
| Crc16.GeneratorUndetected | proxies/Pelican/AutoPilot_HL_SDK/uart.c:728-740 | sixteen is the limit: the generator itself goes unnoticed wherever it strikes |
| Crc16.ResidueIffChecksum | proxies/Pelican/AutoPilot_HL_SDK/uart.c:686-698 | folding on through two appended bytes gives zero exactly if they are the checksum, low byte first |
| LockGroups.HoldsStep | proxies/LinkQuad/sources/Lockable.cpp:19-44 | each step changes what its thread holds by the one mutex it takes or gives back |
| LockGroups.StepKeepsInv | proxies/LinkQuad/sources/Lockable.cpp:19-44 | every mutex stays owned by the thread whose progress says so, as often as it says |
| LockGroups.MutualExclusion | proxies/LinkQuad/sources/Lockable.cpp:19-34 | in no reachable state do two threads have Lockables locked that have a group in common |
| LockGroups.WaitsHigher | proxies/LinkQuad/sources/Lockable.cpp:46-55 | along a chain of waiting threads the group ids only grow |
| LockGroups.NoDeadlock | proxies/LinkQuad/sources/Lockable.cpp:19-55 | if no Lockable of a group is shared, no set of threads is ever deadlocked |
| LockGroups.Progress | proxies/LinkQuad/sources/Lockable.cpp:19-55 | then an unfinished call somewhere can always take a step |
| LockGroups.DeadlockStays | proxies/LinkQuad/sources/Lockable.cpp:22-39 | a deadlock is final, whatever the other threads do |
| LockGroups.SharingDeadlocks | proxies/LinkQuad/sources/Lockable.cpp:22-39 | two threads that share a Lockable of a group can reach a deadlock |
| LockGroups.DeadlocksIffShared | proxies/LinkQuad/sources/Lockable.cpp:19-55 | a system of any number of threads and groups can deadlock if and only if two threads use one Lockable that belongs to a group |
| LockGroups.EveryCallFinishes | proxies/LinkQuad/sources/Lockable.cpp:19-44 | without new calls every schedule has a fixed number of steps left, and when it can go no further all calls have finished |
| LockGroups.SyncGroupFactory.GenerateSyncGroupId | proxies/LinkQuad/sources/SyncGroup.cpp:34-43 | no id is given out twice |
| LockGroups.SyncGroup.constructor | proxies/LinkQuad/sources/SyncGroup.cpp:12-14 | a new group has an id of its own and a free mutex |
| LockGroups.SortGroups | proxies/LinkQuad/sources/Lockable.cpp:53 | the sorted list has the same groups in the order of their ids |
| LockGroups.Lockable.JoinGroup | proxies/LinkQuad/sources/Lockable.cpp:50-55 | the group is added and the list stays in the order of the ids |
| LockGroups.Lockable.LeaveGroup | proxies/LinkQuad/sources/Lockable.cpp:57-61 | all entries of the group go, the others stay in order |
| LockGroups.Lockable.Lock | proxies/LinkQuad/sources/Lockable.cpp:19-34 | a thread that nobody hinders has every group as many times more as the list names it |
| LockGroups.Lockable.Unlock | proxies/LinkQuad/sources/Lockable.cpp:36-44 | unlock gives back what lock took |
| Filters.Mod | proxies/LinkQuad/sources/Filter.cpp:46-49 | the index wraps in both directions over C's truncating remainder |
| Filters.Filter.constructor | proxies/LinkQuad/sources/Filter.cpp:17-34 | a new filter has the given coefficients and a zero history |
| Filters.Filter.Accumulate | proxies/LinkQuad/sources/Filter.cpp:53-58 | the loop over the circular history computes the two sums of the difference equation |
| Filters.Filter.Step | proxies/LinkQuad/sources/Filter.cpp:51-67 | each call extends the input and output signals so that they still solve the difference equation; a running trigger passes the input through |
| Filters.SolutionUnique | proxies/LinkQuad/sources/Filter.cpp:51-67 | the equation has one solution, so it fixes every output |
| Filters.FilterLinear | proxies/LinkQuad/sources/Filter.cpp:51-67 | the filter is linear in its whole input |
| Filters.CompFilter1.Precalc | proxies/LinkQuad/sources/CompFilter1.cpp:28-38 | alpha is the ratio of the time constants, and both filters start afresh |
| Filters.CompFilter1.Filter | proxies/LinkQuad/sources/CompFilter1.cpp:40-42 | the output is the sum of the two filters, and the input itself if both sources have always agreed |
| Filters.PairIsExact | proxies/LinkQuad/sources/CompFilter1.cpp:32-41 | the same signal on both inputs comes out unchanged, for every alpha |
| Filters.PairCorrects | proxies/LinkQuad/sources/CompFilter1.cpp:40-42 | with two sources the output is the low source plus the high-passed difference |
| Filters.BiasFades | proxies/LinkQuad/sources/CompFilter1.cpp:35-37 | a constant offset of the high source fades as the powers of alpha |
| Filters.LowPassInHull | proxies/LinkQuad/sources/CompFilter1.cpp:32-34 | the low-pass part never leaves the hull of zero and the inputs so far |
| Filters.TimeConstantRatio | proxies/LinkQuad/sources/CompFilter1.cpp:29-31 | alpha times (fs + pi fc) is fs |
| Filters.AlphaInRange | proxies/LinkQuad/sources/CompFilter1.cpp:29-31 | positive frequencies give an alpha strictly between 0 and 1 |
| Pid.WeightsConvex | proxies/Pelican/sources/PID.cpp:45-51 | for every length the weights are positive, fall with age and sum to one |
| Pid.TotalOfWeights | proxies/Pelican/sources/PID.cpp:45-51 | the sum of any number of the weights in closed form |
| Pid.SmoothedInHull | proxies/Pelican/sources/PID.cpp:44-51 | the smoothed derivative lies between the least and the greatest of the last n raw ones |
| Pid.AntiWindupBounds | proxies/Pelican/sources/PID.cpp:56-69 | over every run the integral term exceeds the saturation by at most one step's worth |
| Pid.NegativeGainWindsUp | proxies/Pelican/sources/PID.cpp:61-65 | with a negative gain a constant positive error is integrated in full at every step |
| Pid.BoundedIffGainNotNegative | proxies/Pelican/sources/PID.cpp:56-69 | for all limits on error and interval, the integral term is bounded over all runs if and only if the gain is not negative, and then by the saturation and one step's worth |
| Pid.IntegratesInside | proxies/Pelican/sources/PID.cpp:56-69 | as long as the integral term has been inside the saturation, the integrator is the plain sum of error times elapsed |
| Pid.ControlLaw | proxies/Pelican/sources/PID.cpp:28-77 | over every run from start or reset in which the integral term stays inside the saturation, or without one: kp times the error, plus ki times the sum of error times elapsed over the calls before, plus kd times the weighted mean of the last raw derivatives; the output is that value inside the limit and the nearer bound elsewhere |
| Pid.StateAfter | proxies/Pelican/sources/PID.cpp:28-69 | over every run from start or reset the first call only starts the timer and returns the stored output, and the state is that of the calls since then |
| Pid.Pid.PushDerivative | proxies/Pelican/sources/PID.cpp:39-41 | the history is always the last n raw derivatives in order, zero before the start |
| Pid.Pid.Smooth | proxies/Pelican/sources/PID.cpp:44-51 | the loop computes the weighted sum of that history |
| Pid.Pid.UpdateIntegrator | proxies/Pelican/sources/PID.cpp:56-67 | the error is integrated exactly if the integral term is strictly inside the saturation or the error drives it back, and always without a saturation |
| Pid.Pid.GetOutput | proxies/Pelican/sources/PID.cpp:28-77 | the three terms with the integrator from before the call and the newest derivative included, limited to the nearer bound; the first call returns the stored output; with a maximum the result is in range from the first step on |
| Pid.Pid.EnableAntiWindup | proxies/Pelican/sources/PID.cpp:79-85 | the saturation is taken without its sign |
| Pid.Pid.EnableMaxOutput | proxies/Pelican/sources/PID.cpp:87-93 | the maximum is taken without its sign |
| Pid.Pid.Reset | proxies/Pelican/sources/PID.cpp:95-100 | everything is forgotten but the last output |
| FlightModes.StepKeepsInv | proxies/LinkQuad/sources/Linkquad_Autopilot.cpp:322-372 | both timers run since a step that justifies them, with the mode kept since, whether or not the packets went out |
| FlightModes.MotorsCutExactly | proxies/LinkQuad/sources/Linkquad_Autopilot.cpp:456-461 | in every run the thrust is zero exactly in the steps that choose LANDED, and between 500 and 900 in all others |
| FlightModes.CutOnlyAfterTimedLanding | proxies/LinkQuad/sources/Linkquad_Autopilot.cpp:351-368 | LANDED is chosen only out of LANDING, more than a second after a step that measured less than 0.40 m, with LANDING and the fixed thrust kept in between |
| FlightModes.TakeoffBounded | proxies/LinkQuad/sources/Linkquad_Autopilot.cpp:329-350 | motors start only on a take-off command; a take-off ends below five seconds and at 1.1 m |
| FlightModes.TakeoffExactly | proxies/LinkQuad/sources/Linkquad_Autopilot.cpp:329-338 | in every run a step that finds TAKINGOFF keeps it if and only if neither LAND nor HOVER is commanded, the height is below 1.1 m and less than five seconds have passed since it began; otherwise it chooses LANDING on that command and HOVERING without it |
| FlightModes.LandingExactly | proxies/LinkQuad/sources/Linkquad_Autopilot.cpp:351-368 | in every run a step that finds LANDING chooses TAKINGOFF exactly on that command, otherwise LANDED exactly if more than a second has passed since the first low height of this landing, and otherwise LANDING |
| FlightModes.StoredIfSent | proxies/LinkQuad/sources/Linkquad_Autopilot.cpp:463-501 | the next step finds the mode that was chosen exactly if the packet went out |
| FlightModes.CommandsObeyed | proxies/LinkQuad/sources/Linkquad_Autopilot.cpp:322-369 | in every run LAND works wherever the vehicle is in the air, FLYING is entered exactly by MOVE from HOVERING and TAKINGOFF exactly by TAKEOFF from LANDED or LANDING, and the emergency mode never |
| FlightModes.LandingCompletes | proxies/LinkQuad/sources/Linkquad_Autopilot.cpp:351-362 | a landing that keeps going ends in LANDED at the first step after one second |
| FlightModes.ReferenceBounds | proxies/LinkQuad/sources/Linkquad_Autopilot.cpp:375-456 | the climb speed asked for in each mode, exactly: 0.4 m/s down when landing, 0.2 m/s down above 4.5 m in flight and the commanded one below, the eased take-off speed between the ground and 1.1 m; never beyond 0.5 m/s except upward in a take-off |
| FlightModes.SmoothedWithin | proxies/LinkQuad/sources/Linkquad_AltSpeedController.cpp:113-134 | the smoothed climb speed stays within the saturation |
| FlightModes.AltSpeedController.constructor | proxies/LinkQuad/sources/Linkquad_AltSpeedController.cpp:27-44 | the controller starts disabled, with the smoothing filter of unit gain |
| FlightModes.AltSpeedController.Enable | proxies/LinkQuad/sources/Linkquad_AltSpeedController.cpp:137-147 | any change of state forgets the last height |
| FlightModes.AltSpeedController.GetOutput | proxies/LinkQuad/sources/Linkquad_AltSpeedController.cpp:53-69 | zero when disabled; otherwise 0.7 more than the PID output, which is cut at 0.2 either way |
| FlightModes.AltSpeedController.UpdateAltitude | proxies/LinkQuad/sources/Linkquad_AltSpeedController.cpp:71-135 | of six heights one is differentiated and saturated; what reaches the PID never leaves the saturation |
| FlightModes.Autopilot.Open | proxies/LinkQuad/sources/Linkquad_Autopilot.cpp:110-124 | the mode is unknown, no landing is timed and the last command is INIT |
| FlightModes.Autopilot.SetCommandData | proxies/LinkQuad/sources/Linkquad_Autopilot.cpp:174-190 | every field out of range goes to the nearer bound and the others stay; a closed autopilot ignores the command |
| FlightModes.Autopilot.GotSample | proxies/LinkQuad/sources/Linkquad_Autopilot.cpp:226-275 | the first sample chooses LANDED up to 0.40 m and HOVERING above, later ones leave the mode alone; every sample reaches the climb controller |
| FlightModes.Autopilot.ChangeMode | proxies/LinkQuad/sources/Linkquad_Autopilot.cpp:322-369 | the mode switch on the local copy of the mode, with its timers, refines the step that TakeoffExactly, LandingExactly and CommandsObeyed are about |
| FlightModes.Autopilot.CommandClimb | proxies/LinkQuad/sources/Linkquad_Autopilot.cpp:375-456 | the controller is switched and gets the reference of the chosen mode |
| FlightModes.Autopilot.RunOnce | proxies/LinkQuad/sources/Linkquad_Autopilot.cpp:305-501 | one run of the control thread, with the mode stored only if the packet went out |
| Trajectory.Trajectory.Update | example/sources/Trajectory.cpp:32-49 | in at most one turn the index moves to the first waypoint in cyclic order that is not near, or back to where it was exactly if none or all advances are made |
| Trajectory.Trajectory.AppendWaypoint | example/sources/Trajectory.cpp:27-30 | the waypoint joins the end of the list |
| Trajectory.DistanceIsRadius | example/sources/Trajectory.cpp:73-80 | for the cosine and sine of any angle the waypoint is level with the center and at a distance of radius from it |
| Trajectory.Trajectory.GenerateXYCircle | example/sources/Trajectory.cpp:73-80 | the list becomes the points of the circle, the index is kept, and update may be called again if and only if there is a point at that index |
| Trajectory.Trajectory.Fly | example/sources/Trajectory.cpp:32-39 | any series of updates follows the specification of a mission, each with the first waypoint not near at its time |
| Trajectory.FollowsUnique | example/sources/Trajectory.cpp:32-39 | what is near at each update determines the whole mission |
| Trajectory.NothingSkipped | example/sources/Trajectory.cpp:32-39 | over a whole mission each waypoint passed was near during the very update that passed it |
| VideoSync.VideoChannel.ReadData | api/sources/VideoChannel.cpp:234-247 | however the stream is split, success gives the next bytes in order and failure loses fewer than asked for |
| VideoSync.VideoChannel.FindSignature | api/sources/VideoChannel.cpp:150-158 | the first signature that lies in the window as a whole is found |
| VideoSync.VideoChannel.ShiftDown | api/sources/VideoChannel.cpp:160 | the loop moves the rest of the window to the front |
| VideoSync.VideoChannel.SyncFrame | api/sources/VideoChannel.cpp:145-164 | on success the buffer has consecutive bytes of the stream from the first signature of the first window on, and exactly the bytes before them are dropped; unless a read fails, it succeeds exactly if the window has a signature |
| VideoSync.VideoChannel.Resync | api/sources/VideoChannel.cpp:166-174 | syncFrame called again and again stops, unless a read fails, at the place in the stream that the search specifies, with that frame in the buffer |
| VideoSync.LocksOntoFirst | api/sources/VideoChannel.cpp:145-174 | repeated attempts find the first signature of the stream if and only if its first byte does not end a window |
| VideoSync.FindsSignature | api/sources/VideoChannel.cpp:145-174 | what they find is always a signature followed by a full header |

## Left out

- Rounding, overflow and NaN of floating-point numbers: reals are exact. The power of a cosine that eases a take-off, and the test for a near waypoint, are inputs.
- Sockets, serial ports, registers, interrupts, cameras, video coding, Vicon, logging: inputs, outcomes or assumed successes.
- Failures of mutex calls, and with them the rollback in Lockable::lock; they are assumed to succeed.
- LockGroups.Lockable.Lock: models a call that no other thread hinders, because an interleaving of calls has no form as a method; interleaved calls are steps on values, with the mutexes in a map. Membership is fixed while threads run, and each thread holds one Lockable at a time.
- LockGroups.Lockable.Unlock: models the call by the thread that has the groups; the Lockable's own mutex is taken in the steps on values.
- The overflow of the group id counter after 2^31 groups.
- AcceptQueue.RdcpServer.Accept: starts at the end of the wait; what happened during it are earlier steps of other threads. The connect call of the new socket is not part of it.
- RdcpServer::close, DycsServer::close and reopening (the commander is not cleared there).
- Rdcp.RdcpSocket.Read: assumes that no packet comes in while it waits; peek, which consumes the condition but not the message, is not part of the model.
- Rdcp.RdcpSocket.SenderRun: the wait for the condition is over when the method starts, so a fired condition means a new payload.
- Rdcp.FaultExactly: the errors are counted on the datagrams of one receiver thread; a state change by another thread between two lines of that thread is not modelled.
- Dycs.DycsServerConn.ReadOrPeek: recording a request and arbitrating it are one step.
- Dycs.DycsServer.Accept: registering the listener and listing the client are one step; an event between the two (DycsServer.hh:44-46) is lost in the source and assumed not to happen.
- DycsServerConn::write and the granted mode on the wire; reading back `isCommander` is all there is to it.
- The control thread of the autopilot ends after an exception (cvgThread.cpp:139-151); the results do not rely on that and cover further runs.
- FlightModes.MotorsCutExactly: no sample arrives while open is at work; one between Linkquad_Autopilot.cpp:115 and :118 would leave the mode unknown with the first sample taken, and run could then command no thrust in a mode other than LANDED.
- FlightModes.Autopilot.Open: assumes the same.
- FlightModes.Autopilot.GotSample: assumes the same, and that time has passed since the last sample.
- FlightModes.AltSpeedController.Enable: the reset of the PID is not part of it, since the PID's output is an input.
- FlightModes.Autopilot.CommandClimb: the attitude and yaw commands of the same switch are left out.
- FlightModes.Autopilot.RunOnce: leaves out the attitude and yaw commands; the PID's output is an input.
- FlightModes.AltSpeedController.UpdateAltitude: requires that time has passed since the last sample; the division by a zero interval has no real value.
- FlashLog.Eeprom.Write: the IAP calls succeed, and the source's word-wise copy is byte-wise; a record starts with the record identifier, as the header file demands.
- The interpolation of speed in Trajectory::update, whose guard is never true.
- Pid.Pid.GetOutput: requires that time has passed between two calls; otherwise the quotient has no real value.
- Filters.CompFilter1.Precalc: requires frequencies that make no divisor zero, for the same reason.
- Filters.TimeConstantRatio: requires the same.
- The conversion of a command to host byte order in NavigationServer::manageClient, and its timers.
- VideoSync.LocksOntoFirst: no read fails; a failed read drops bytes and moves the windows.
- VideoSync.VideoChannel.SyncFrame: says nothing of the buffer after a failure, and the frame data that follows a header is not part of the model.
- The ring buffer and the packet assembly of the Pelican firmware, the RANSAC, optical flow and matrix code, and the Pelican copies of the modelled files.

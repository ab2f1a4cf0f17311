# NDLCom in Dafny

NDLCom (Node Level Data Link Communication) is a small packet protocol for point-to-point links
between microcontrollers, FPGAs and computers. This project models its reference library in C and
proves what the library is for: that bytes put on a line by the encoder come out of the parser as the
same messages, whatever noise and whatever chunking; that the checksum notices damage; that bridges
learn routes and pass messages through a network without cycles so that each arrives exactly once; and
that the packet counters reveal what was lost.

`dafny verify dfyconfig.toml` checks everything.

## How it is laid out

The files follow the library, each concept in one place; arrows point to what a file builds on.

* **Bytes on the line.** `Types` (bytes, the four-byte header, messages), `Crc` (the table and the
  shift register it tabulates), `CrcDistance` (the period of that register, by multiplication modulo
  the generator polynomial), `CrcDetection` (linearity, residue, bursts, parity, two flipped bits),
  `Framing` (octet stuffing as in section 4.2 of RFC 1662), `Encoder` (the writing loops over an output
  array), `Receiver` (the parser as a value: one step a byte), `Parser` (the class with its two buffers
  and write positions, refining `Receiver`), `Stream` (what a stream means, without any state machine:
  split at the flags, unstuff, cut into frames), `RoundTrip` (the encoder undone, resynchronisation,
  damage), `WireFormat` (the start value of the checksum, the stuffing and whole frames, in literals).
* **Lists that change under a loop.** `Iteration` (the loop over a list whose callbacks remove entries,
  as a walk over a sequence), `LinkedList` (the intrusive doubly linked ring and the same loop on its
  pointers, refining the walk).
* **One bridge.** `Routing` (the routing table), `BridgeModel` (where one message goes, what is
  learned), `BridgeRuns` (what holds of the table over every sequence of events), `Traffic` (bytes in,
  messages out, as a value), `Bridge` (the class: reading, parsing, learning, writing, handling, draining),
  `Node` (one sender id on the internal side), `Links` (what one bridge writes is what the next one reads).
* **A network of bridges.** `Topology` (a unique path between any two sites), `Network` (all bridges with
  all copies in flight as a transition system, and its invariant), `Delivery` (true routes, exactly-once
  delivery, every flood ends), `Progress` (every message can be sent and
  then arrives), `Learning` (what a broadcast teaches), `Growth` (networks with these
  properties exist: any that is built by plugging in one site after the other).
* **Counters.** `Counters` (numbering packets per receiver, expecting them per pair), `MissDetection`
  (what the miss counts mean).
* `Sequences` keeps facts about sequences away from the proofs that use them.

Classes and arrays stand where the library updates memory in place (parser, encoder output, list nodes,
routing table, bridge, node, counters); each method is tied to a function on values, and the laws are
proved about these functions. The C operations on unsigned bytes are bit vectors of width 8 and 16; the
32-bit failure and miss counters wrap explicitly.

What is not under the library's control is a parameter: how many devices the table has rows for, the
largest payload a parser accepts, the size of the read buffer, how many of the waiting bytes one read
returns, and which interfaces the handlers deregister in reaction to all messages they were ever shown.

## Where the code and its documentation differ

The model follows the code; each difference is proved as an exact condition.

* *Oversized packets.* `include/ndlcom/Types.h:103-109` says that packets beyond the configured maximum
  do not disturb the parser and can never be received. The parser only drops the header and one more byte
  (`src/Parser.c:91-92`, `src/Parser.c:159-161`) and reads the rest of the payload as new frames, so a payload
  that contains a frame delivers it. `RoundTrip.OversizedAreSilentExactly`: the promise holds exactly when the
  maximum is 255, where no packet is oversized; `RoundTrip.CarrierDelivers` gives the packet that breaks it.
* *The broadcast sender.* `src/Routing.c:29-34` promises that the broadcast id never enters the table. With the default
  of 256 devices the guard excludes nothing. `Routing.BroadcastStaysOutExactly`: kept exactly by tables
  of at most 255 rows.
* *Removal inside list loops.* `src/Bridge.c:31-38` hopes to survive any removal. `Iteration.EndsExactly`: the loop ends
  exactly when no single callback removes both the current entry and its saved successor.
* *Too small output buffers.* `include/ndlcom/Encoder.h:27-36` speaks of 0 or a half-encoded message.
  `Encoder.OutputIsMessageExactly` says exactly when the output is the message, `Encoder.ReportsZeroExactly` exactly when 0
  is reported: for an empty buffer or a wrong length, never for a buffer that is merely too small.
* *Reduced device counts in the miss detection.* The flags are indexed with the sender in the upper eight bits
  (`src/BridgeHandler.cpp:78-79`) although there are only N * N of them. `MissDetection.RoomExactly`: every pair
  that is let through has its place exactly for N = 256 (and the trivial N <= 1).
* *The reported difference.* `BridgeMissEvents::isMiss` returns a plain `int` difference, negative when the counter wrapped.
  `MissDetection.DifferenceIsLoss`: it is the number of lost packets modulo 256, less 256 when it wrapped.
* *Manual routes.* `src/Bridge.c:371-377` does not check that the interface is registered.
  `BridgeRuns.RouteIsSafeExactly`: harmless exactly when it is, or when the id has no row.
* *Several nodes with one id.* `src/Node.c:46-53` clears the id even if another node still uses it.
  `BridgeRuns.DeregisterIsSafeExactly`: safe exactly when no other node does.

## Assumptions

* The 16-bit checksum is configured, and the host is little-endian, so its low byte is sent first
  (`src/Encoder.c:176-178`).
* Damage is looked at after unstuffing, with the length byte intact; a damaged length byte moves the frame
  boundary, and what the receiver then makes of the bytes is `Stream.DriveIsMeaning`.
* In the network every bridge forwards, there are no mirrors, links lose nothing, every id has one home, only
  its home sends under it, and nobody has the broadcast id. Steps interleave in any order, messages may overtake each other.
* Handlers may deregister interfaces; they do not register any, nor send from inside a handler. For the claim
  that processing ends, a handler deregisters at most the interface the message came from; the loop for
  arbitrary removals is the one in `Iteration` and `LinkedList`.
* A bridge's interfaces do not share memory, and write functions only write.

## Model

| member | source | states |
|---|---|---|
| Crc.TableIsGenerated | src/Crc.c:34-66 | each of the 256 table entries is eight clocks of the reflected shift register on its index |
| Crc.ShiftIsGeneratorStep | test/printTable.c:35-36 | one clock without a branch is the conditional step of the table generator of RFC 1662, Appendix C |
| Crc.DoCrcIsByteStep | src/Crc.c:71-73 | one table look-up takes in the eight bits of a byte one by one, for every register value |
| Crc.Update | src/Crc.c:71-73 | the table look-up as the parser and the encoder call it is the bit-serial step |
| CrcDetection.TableCrcIsSerial | src/Crc.c:71-73 | for every start value and byte string the table-driven checksum is the bit-by-bit register with polynomial 0x8408 |
| CrcDetection.ResidueExact | include/ndlcom/Crc.h:46 | two more bytes bring the register to zero if and only if they are its low byte, then its high byte |
| CrcDetection.CrcLinear | src/Crc.c:71-73 | the checksum of flipped bytes is the checksum xor that of the flips |
| CrcDetection.BurstFromZero | src/Crc.c:71-73 | every non-empty error pattern within 16 consecutive bits leaves a non-zero register, in strings of any length |
| CrcDetection.BurstsAreNoticed | src/Crc.c:71-73 | flips that all lie within 16 consecutive bits, at least one of them, are among the noticed patterns |
| CrcDetection.SerialParity | src/Crc.c:71-73 | the register's parity is the parity of the number of set bits |
| CrcDetection.OddFlipsAreNoticed | src/Crc.c:71-73 | so is every pattern with an odd number of set bits |
| CrcDistance.ShiftsIsTimes | src/Crc.c:71-73 | n clocks of the register are a multiplication by the n-th power of x modulo the generator |
| CrcDistance.IdleExactly | src/Crc.c:71-73 | n clocks change nothing exactly when n is a multiple of 32767 |
| CrcDetection.PairFromZero | src/Crc.c:71-73 | two flipped bits cancel out exactly when their distance is a multiple of 32767 |
| CrcDetection.ThreeFlipsAreNoticed | include/ndlcom/Types.h:123-123 | one, two or three flipped bits anywhere in up to 4095 bytes, and a decoded frame has at most 261, are always noticed |
| CrcDetection.CorruptionLeavesResidue | src/Parser.c:139-147 | a string with residue zero loses it under every burst, every odd number of flips and every two flips not a period apart |
| WireFormat.StartValue | include/ndlcom/Crc.h:42 | starting from the initial value is starting from zero with the first two bytes inverted, whatever follows |
| WireFormat.StuffingByByte | src/Encoder.c:85-91 | 0x7d becomes 0x7d 0x5d, 0x7e becomes 0x7d 0x5e, every other byte stays |
| WireFormat.PlainStays | src/Encoder.c:85-91 | a string without 0x7d and 0x7e is its own stuffing |
| WireFormat.ZerosOnTheWire | src/Encoder.c:123-185 | the empty message of zeros, byte by byte: flag, four zeros, 0x21, 0x03, flag |
| WireFormat.EscapablesOnTheWire | src/Encoder.c:123-185 | a message with four different header bytes and payload 0x7d, 0x7e, byte by byte |
| Framing.EscapeShape | src/Encoder.c:85-91 | stuffed bytes contain no flag, and their number is the number of bytes plus that of escapable ones |
| Framing.UnescapeEscape | src/Parser.c:61-73 | unstuffing undoes stuffing and leaves no dangling escape byte |
| Framing.EscapeInjective | src/Encoder.c:85-91 | different contents are stuffed differently |
| Framing.EncodeShape | src/Encoder.c:123-185 | an encoded message has 8 + n bytes plus one per escapable byte, and flags exactly at its two ends |
| Encoder.EncodeInit | src/Encoder.c:34-49 | the start flag, if there is room for it, and the initial checksum (fixed by `WireFormat.StartValue`), nothing else before it changed |
| Encoder.EncodeAppendPayload | src/Encoder.c:52-96 | writes nothing unless twice the data fits; otherwise exactly the stuffed data and its checksum; never beyond the buffer |
| Encoder.EncodeFinalize | src/Encoder.c:99-112 | the stop flag, if there is room for it |
| Encoder.EncodeVar | src/Encoder.c:123-185 | for every buffer size and every list of sections: what is in the buffer is the specified output, and no position is beyond the buffer |
| Encoder.EncodeMessage | src/Encoder.c:115-120 | the two-part call is the sectioned one with one section |
| Encoder.OutputIsMessageExactly | src/Encoder.c:65-68 | the output is the encoding of the concatenated payload exactly when no section is refused for room, the stop flag fits and the length is right |
| Encoder.WorstCaseFits | include/ndlcom/Types.h:134-144 | a buffer of 2 + 2 * (4 + n + 2) bytes suffices for every split of an n-byte payload into sections |
| Encoder.BridgeBufferSuffices | src/Bridge.c:74-75 | the buffer the bridge sizes from the header always takes the whole message |
| Encoder.ReportsZeroExactly | include/ndlcom/Encoder.h:27-36 | 0 is reported exactly for an empty buffer or a length field that contradicts the sections |
| Parser.Parser.constructor | src/Parser.c:22-37 | a new parser waits for a header and has counted no failures |
| Parser.Parser.Receive | src/Parser.c:44-173 | for every input, state and number of bytes the loop over buffers, write positions and running checksum is the receiver on values; write positions stay in their buffers |
| Parser.Parser.DestroyPacket | src/Parser.c:188-194 | everything but the failure count is forgotten |
| Parser.Parser.GetPacket | src/Parser.c:179-186 | header and payload buffer of a finished parser are the message of the decoded bytes, its length field true |
| Parser.HeaderGrows | src/Parser.c:76-105 | a header byte keeps the run invariant: offset below 4 before, checksum the fold of exactly the decoded bytes, mode as the length demands |
| Parser.DataGrows | src/Parser.c:106-119 | a payload byte keeps the run invariant: offset below the announced length, that below the buffer's |
| Receiver.ReceiveProgress | src/Parser.c:44-173 | a call on a receiver without a waiting message reads between 1 and all bytes, and stops early only with a message |
| Receiver.ReceiveIsDrive | src/Bridge.c:235-297 | the call and its collected message are the driver on exactly the bytes it reports |
| Receiver.FinishedIsKept | src/Parser.c:149-157 | a call on a finished parser takes no data byte: it reports 0, and the message stays |
| Receiver.ChunkingIrrelevant | src/Bridge.c:235-297 | only the concatenation of the pieces in which a stream arrives matters |
| Stream.CutConcat | src/Parser.c:133-147 | cutting a decoded segment into frames goes on where it stopped, whether frames were good, bad or oversized |
| Stream.SegmentTrace | src/Parser.c:61-73 | on a stretch without flags the receiver is: unstuff, then cut into frames |
| Stream.DriveIsMeaning | src/Parser.c:44-173 | for every byte stream the incremental parser with its driver delivers, counts and retains what splitting at flags, unstuffing and cutting yields; below 2^32 the failure count is the number of bad checksums |
| RoundTrip.EncodeDelivers | src/Parser.c:54-173 | an encoded message is delivered whole from any state of the receiver, which is then empty |
| RoundTrip.RoundTripAfterNoise | src/Encoder.c:123-185 | after any noise, in any chunking and from any state, encoded messages are delivered equal and in order after what the noise itself delivers |
| RoundTrip.EveryReadyStateIsReached | src/Parser.c:44-173 | every state of the receiver's invariant is reached by some stream, so quantifying over them is quantifying over histories |
| RoundTrip.AcceptsOnlyTheChecksum | src/Parser.c:133-147 | after header and payload exactly the two checksum bytes complete the message; all others reset and count one failure |
| RoundTrip.DamageIsNoticed | src/Parser.c:139-147 | a frame of any length, damaged by a noticed pattern with the length byte intact, delivers nothing and raises the failure count by one, which wraps at 2^32 |
| RoundTrip.BadFrameHidesNothing | src/Parser.c:144-145 | after a bad checksum the parser does not wait for a flag: a frame that follows at once is delivered, and one failure counted |
| RoundTrip.OversizedIsCutAgain | src/Parser.c:91-92 | of an oversized message everything behind header and first payload byte is read as new frames |
| RoundTrip.CarrierDelivers | src/Parser.c:159-161 | an oversized message that does deliver something, for every maximum below 255 |
| RoundTrip.OversizedAreSilentExactly | include/ndlcom/Types.h:103-109 | oversized messages are never received exactly when the maximum is 255, where there are none |
| Iteration.EndsExactly | src/Bridge.c:31-38 | the loop over a list that shrinks under it ends exactly when no callback removes both the current and the saved entry |
| Iteration.VisitsRegistered | src/Bridge.c:189-210 | without such a callback, only entries registered at that moment are called |
| Iteration.CoversSurvivors | src/Bridge.c:361-367 | and every entry that stays registered is called at least once, in at most as many turns as there were entries |
| Iteration.CalledAgainExactly | src/Bridge.c:35-38 | an entry is called a second time exactly when its callback removed its successor and not itself |
| LinkedList.Add | include/ndlcom/list.h:143-146 | list_add on pointers keeps a well-formed ring and prepends |
| LinkedList.DelInit | include/ndlcom/list.h:223-227 | list_del_init closes the ring around the entry, which becomes a ring of its own |
| LinkedList.EmptyMeansUnlisted | include/ndlcom/list.h:267-270 | list_empty of an entry decides whether it is on the list |
| LinkedList.Check | src/Bridge.c:442-453 | the search loop decides membership |
| LinkedList.Register | src/Bridge.c:403-413 | registering prepends, and registering twice is registering once |
| LinkedList.Deregister | src/Bridge.c:427-440 | deregistering removes exactly that entry, keeps all others in order, and does nothing to a stranger |
| LinkedList.ForEachSafe | include/ndlcom/list.h:603-607 | the loop on the pointers makes exactly the visits of the walk, for every hazard-free behaviour of the callbacks |
| Routing.RoutingTable.constructor | src/Routing.c:6-13 | a new table sends everything everywhere |
| Routing.RoutingTable.Update | src/Routing.c:27-38 | ids beyond the table are ignored, others get exactly the new destination |
| Routing.RoutingTable.InvalidateInterface | src/Routing.c:40-51 | every route over the interface is forgotten, all others stay |
| Routing.LookupUpdated | src/Routing.c:15-38 | a look-up finds the last update of its id within the table, and everything else as before |
| Routing.BroadcastStaysOutExactly | src/Routing.c:29-34 | the broadcast id stays out of the table exactly when it has at most 255 rows |
| BridgeModel.FanOut | src/Bridge.c:81-162 | the number of copies each interface gets, for all tables, flags, mirrors and origins, with the forwarding rule written out; none goes back to the origin |
| BridgeModel.ForwardingExactly | src/Bridge.c:100-105 | switching forwarding off changes nothing for messages from the bridge or for it; of all others only mirrors get copies |
| BridgeModel.LearnExactly | src/Bridge.c:258-269 | an arrival changes exactly the sender's route, and not even that from a mirror, for an own id, or without a row |
| BridgeModel.AtMostOneCopyExactly | src/Bridge.c:81-162 | no interface gets two copies exactly unless a usable route names a registered mirror |
| BridgeRuns.IntegrityOverRuns | src/Bridge.c:427-440 | over every sequence of registrations, traffic, marks and guarded routes each entry is all, the bridge, or a registered interface |
| BridgeRuns.AnyEventIsPossible | src/Bridge.c:357-369 | runs may go on with anything but bytes from, or routes to, an unregistered interface |
| BridgeRuns.RouteIsSafeExactly | src/Bridge.c:371-377 | a manual route leaves the table sound exactly when its interface is registered or its id has no row |
| BridgeRuns.ReadingOnDanglesExactly | src/Bridge.c:281-294 | going on with residual bytes of a deregistered interface would leave a dangling route, exactly for non-mirrors and ordinary ids of the table |
| BridgeRuns.BroadcastFloodsOverRuns | src/Routing.c:27-38 | in every run broadcasts stay routed to everybody, if the table has at most 255 rows or nothing ever claims the broadcast id |
| BridgeRuns.StepKeepsInternal | src/Bridge.c:258-269 | no step, whatever sender id a frame claims, changes that the bridge's own ids are its nodes' ids |
| BridgeRuns.InternalOverRuns | src/Node.c:33-70 | over every run of nodes registering, deregistering and renaming amid traffic the ids mapped to the bridge are exactly the nodes' own |
| BridgeRuns.AnyHostEventIsPossible | src/Node.c:33-70 | in these runs everything may happen at any time but a second node with the same id, an id without a row, and manual routes onto the nodes' ids |
| BridgeRuns.DeregisterIsSafeExactly | src/Node.c:46-53 | deregistering a node keeps that exactly when no other node uses its id |
| Traffic.PumpReceive | src/Bridge.c:235-297 | one turn of the inner loop: a call of the parser, and what becomes of the message it finished |
| Traffic.PumpIsDrive | src/Bridge.c:235-297 | whatever handlers do, as long as the interface stays, all bytes are dealt with and exactly the messages of its stream arrive, in order |
| Traffic.PumpLogs | src/Bridge.c:282-294 | an interface that has to leave delivered the beginning of its messages, one that stays all of them |
| Traffic.HandlersExactly | src/Bridge.c:189-210 | every message, also one from inside, is shown to the handlers; what they deregister is gone with its routes, and nothing else |
| Traffic.MirrorTeachesNothing | src/Bridge.c:258-269 | an arrival on a mirror leaves every route as it was, apart from those to what the handlers deregister |
| Traffic.ExpellingExactly | src/Bridge.c:282-294 | the handlers of the draining theorem may decide about each message as they like whether its interface has to leave |
| Traffic.PumpKeepsIntegrity | src/Bridge.c:264-294 | no dangling route is left when a handler deregisters any interfaces, the one being parsed included, amid its bytes |
| Traffic.DueKept | src/Bridge.c:235-297 | messages seen plus messages still in the queue is conserved by reading and parsing a buffer |
| Bridge.ExternalInterface.Read | src/Bridge.c:226-227 | a read takes some waiting bytes, at most a buffer full, and none only if none wait |
| Bridge.NDLComBridge.constructor | src/Bridge.c:301-312 | no interfaces, nothing known, forwarding on |
| Bridge.NDLComBridge.RegisterExternalInterface | src/Bridge.c:403-413 | the interface is registered afterwards, at the front unless it was before; table and forwarding stay |
| Bridge.NDLComBridge.DeregisterExternalInterface | src/Bridge.c:427-440 | exactly this interface leaves the list and exactly the routes over it are forgotten; all else stays, in order |
| Bridge.NDLComBridge.MarkDeviceIdAsInternal | src/Bridge.c:379-383 | a look-up of the id, if it has a row, gives the bridge, every other look-up is as before |
| Bridge.NDLComBridge.ClearInternalDeviceId | src/Bridge.c:385-389 | a look-up of the id, if it has a row, gives everybody, every other look-up is as before |
| Bridge.NDLComBridge.AddRoutingInformationForDeviceId | src/Bridge.c:371-377 | a look-up of the id, if it has a row, gives the interface, registered or not, every other look-up is as before |
| Bridge.NDLComBridge.SetRoutingForDeviceId | src/ExternalInterface.c:27-35 | an interface routes an id to itself only while it is registered |
| Bridge.NDLComBridge.ProcessOutgoingMessage | src/Bridge.c:54-163 | the two loops and the single write put the encoding of the message on exactly the lines of the fan-out, in order |
| Bridge.NDLComBridge.ProcessDecodedMessage | src/Bridge.c:175-211 | outgoing side first, on the routes as they were, then the handlers with their deregistrations |
| Bridge.NDLComBridge.SendRaw | src/Bridge.c:320-333 | a message from inside goes the same way with the bridge as origin, and is shown to the handlers |
| Bridge.NDLComBridge.ProcessExternalInterface | src/Bridge.c:214-299 | one read, and the inner loop over its bytes, is the pump on values, stopping when the interface is deregistered |
| Bridge.CursorMoves | src/Bridge.c:31-38 | the cursor of the loop over interfaces stays healthy when the current interface leaves |
| Bridge.NDLComBridge.ReadyTogether | src/ExternalInterface.c:4-19 | any further interface with memory of its own may join those the draining theorem is about |
| Bridge.NDLComBridge.ProcessOnce | src/Bridge.c:357-369 | one round serves every interface that stays, accounts for every byte, leaves every due intact, and returns 0 only when all queues are empty |
| Bridge.NDLComBridge.Process | src/Bridge.c:343-351 | ends with every queue empty; each interface that stays delivered exactly the messages of its queue, for all read and buffer sizes; without deregistrations the count is all the bytes; the table stays sound |
| Node.Node.Register | src/Node.c:33-43 | the own id becomes internal |
| Node.Node.Deregister | src/Node.c:46-53 | the own id is given back |
| Node.Node.SetOwnSenderId | src/Node.c:56-70 | old id cleared, new id internal, all counters start anew |
| Node.Node.Send | src/Node.c:112-123 | a payload arrives whole exactly up to 255 bytes; the counter is the number of earlier packets to this receiver modulo 256 |
| Node.Node.MessageHandler | src/Node.c:81-107 | exactly the handlers that want it are called, for messages to the own id or to everybody |
| Node.CalledExactly | src/Node.c:91-105 | a message to the own id or to 0xff is shown once to each handler unless it is from inside and the handler opted out; no other message is shown |
| Links.LineCarries | src/Bridge.c:54-163 | over any run of a bridge, learning and deregistrations included, a line holds the encodings of exactly the messages meant for it |
| Links.LinkDelivers | src/Bridge.c:235-297 | the receiver at the other end, in any state and for any chunking, finds exactly these messages, in order |
| Links.NetworkStepsAreTheBridges | src/Bridge.c:54-163 | the network's step at a site is the bridge's own step |
| Topology.HopAway | doc/NDLCom_long_en.md:5 | with unique paths, every neighbour but the next hop leads back through here |
| Topology.RouteHop | doc/NDLCom_long_en.md:5 | on a path the way on and the way back are different hops |
| Network.StepKeeps | src/Bridge.c:258-274 | every send and every arrival, in any order, keeps routes true, copies outbound, handling in order and nothing forgotten |
| Network.RunInv | src/Bridge.c:111-162 | so all of this holds in every state of every run |
| Delivery.RoutesPointHome | src/Bridge.c:258-269 | in every reachable state a learned route is the interface towards the id's home |
| Delivery.CopiesMoveAway | src/Bridge.c:111-162 | in every reachable state a copy in flight moves away from its sender's home, and is alone on its link |
| Delivery.AtMostOnce | src/Bridge.c:94-162 | no bridge sees a message twice |
| Delivery.UnicastExactlyOnce | src/Bridge.c:94-162 | a unicast that has died out was handled at its receiver's home exactly once, even while tables were being learned |
| Delivery.BroadcastExactlyOnce | src/Bridge.c:115-131 | a broadcast, or a message to an unknown id, that has died out was handled at every site exactly once |
| Delivery.ArrivalAlwaysPossible | src/Bridge.c:214-299 | a copy in flight can always be received |
| Progress.SendAlwaysPossible | src/Node.c:112-123 | in every reachable state every home may send under its ids to any receiver |
| Progress.DiesOut | src/Bridge.c:94-162 | from every state of every run the network falls silent by arrivals alone |
| Progress.EveryMessageArrives | src/Bridge.c:320-333 | from every state of every run any home may send to any id, and by arrivals alone the message is then handled at the receiver's home exactly once, or at every site exactly once |
| Delivery.FloodsEnd | src/Bridge.c:94-162 | a run has at most as many steps as sites times messages sent, so every flood dies out |
| Delivery.ArrivalsDiffer | src/Bridge.c:94-162 | no message arrives twice at a site, so none crosses a link twice |
| Learning.BroadcastTeaches | src/Bridge.c:258-269 | once a broadcast has died out every bridge knows the way to its sender |
| Learning.LaterMessagesKeepToThePath | src/Bridge.c:132-162 | from then on messages to that sender are handled only on the path to its home |
| Growth.GrownIsTree | doc/NDLCom_long_en.md:5 | plugging in one new site after the other never makes a cycle |
| Growth.AnySiteCanBePlugged | doc/NDLCom_long_en.md:5 | any new site may be plugged into any site there is, by one link |
| Growth.ProperNetworksExist | doc/NDLCom_long_en.md:5 | on every such network, with ids at any homes, the hypotheses of the delivery theorems are met |
| Types.LowByteIsModulo | src/HeaderPrepare.c:25-27 | an 8-bit counter after n steps shows n modulo 256 |
| Counters.HeaderConfig.Init | src/HeaderPrepare.c:8-16 | a new personality has sent nothing to anybody |
| Counters.HeaderConfig.Prepare | src/HeaderPrepare.c:18-29 | the counter of a header is the number of earlier packets to the same receiver modulo 256 |
| Counters.ObserveExactly | src/BridgeHandler.cpp:78-102 | an unexpected counter adds one miss to a 32-bit count, a first packet never does, and the next one is expected in any case |
| Counters.MissEvents.IsMiss | src/BridgeHandler.cpp:64-105 | for every history the tables hold what each pair alone would have left, and the difference to the expected counter is reported |
| Counters.MissEvents.ResetMissEvents | src/BridgeHandler.cpp:60-62 | clears the counts and nothing else |
| MissDetection.SameCounterExactly | src/HeaderPrepare.c:25-27 | two packets carry the same counter exactly when a multiple of 256 apart |
| MissDetection.DifferenceIsLoss | src/BridgeHandler.cpp:89-96 | a miss is seen exactly when the number lost is no multiple of 256, and the difference is that number modulo 256, less 256 after a wrap |
| MissDetection.MissesAreGaps | src/BridgeHandler.cpp:86-97 | the miss count of a pair is its number of gaps, modulo 2^32, whatever else is interleaved |
| MissDetection.MissesEndToEnd | src/BridgeHandler.cpp:64-105 | for any in-order lossy part of a sender's packets to any receivers, each pair's misses are the adjacent arrivals whose send indices do not differ by 1 modulo 256 |
| MissDetection.MissesCounted | src/BridgeHandler.cpp:64-105 | the same as a number of packets: below 2^32, and unless cleared, the count is exactly the number of such arrivals |
| MissDetection.RelaysOn | src/HeaderPrepare.c:18-29 | every in-order part of a sender's packets can be what arrives |
| MissDetection.SentToIsCount | src/HeaderPrepare.c:25-27 | a send index is the number of earlier packets to the same receiver |
| MissDetection.BroadcastSenderIgnored | src/BridgeHandler.cpp:66-68 | of packets with sender 0xff nothing is remembered |
| MissDetection.LosslessNeverMisses | src/BridgeHandler.cpp:86-97 | a lossless stream never counts a miss, however often the counters wrap |
| MissDetection.RoomExactly | src/BridgeHandler.cpp:72-79 | the index of the seen flags is in range for every pair let through exactly for 256 devices, or at most one |

## Left out

- CrcDetection.CorruptionLeavesResidue: says nothing about a damaged length byte, which moves the frame boundary; what happens then depends on the bytes that follow.
- Bridge.NDLComBridge.Process: requires that handlers deregister at most the interface a message came from; removals of other interfaces during the round are covered on the list alone (`Iteration`, `LinkedList`), not together with the queues.
- Bridge.NDLComBridge.ProcessDecodedMessage: all handlers together are one reaction to what they were shown; the list of handlers, their flag against internal messages, and removal of handlers by handlers are not in the class (the loop over them is the one in `LinkedList`).
- Node.Node.Register: the node's entry in the bridge's handler list is not modelled, so nor is a node that moves to a second bridge while still registered.
- Bridge.NDLComBridge.RegisterExternalInterface: the bridge keeps its interfaces in a sequence; that the pointer ring behaves like one is proved separately in `LinkedList`.
- Network.StepKeeps: mirrors, switched-off forwarding, lost or corrupted messages, rogue senders and manual routes are not part of the network; for one bridge they are (`BridgeModel`, `BridgeRuns`).
- Counters.MissEvents.IsMiss: modelled for 256 devices, where all its indices are in range; for other sizes see `MissDetection.RoomExactly`.
- Sending or registering from inside a handler, and flags that change while a message is processed.
- ndlcomParserDestroy, which parks a parser in its error state, and the parser's state names.
- The 8-bit XOR checksum, big-endian hosts, and threads.
- POSIX sockets, serial ports, CAN, pipes and pseudo terminals; reading is an input queue, writing a log.
- The C++ wrappers and factories, payload dispatch, printing and byte statistics.
- hlist and the list operations the library never calls (splice, cut, rotate, move).
- Tools, scripts, benchmarks and the LaTeX documentation.

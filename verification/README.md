# Networking assignments: verified models

This project models the parts of the networking assignments that hold hard properties and
proves those properties with Dafny. Each Dafny module stands beside one component.

| files | component |
|---|---|
| `Broker`, `BrokerInvariant`, `Delivery`, `DeliveryLimits`, `DescriptorReuse`, `Server` | the store-and-forward publish/subscribe server |
| `Link`, `LinkProgress`, `LinkQueue`, `LinkThreads` | the two-thread lossy, delayed link emulator and its linked queue |
| `Message`, `FileTransfer` | the message checksum and the windowed file transfer |
| `Checksum`, `PacketCheck`, `RouteLookup` | the router's two Internet checksums, its header check and its route lookup |
| `HttpSearch`, `HttpBuffer`, `HttpReader`, `HttpRequest`, `HttpResponse` | the HTTP response reader, the POST request writer, and responses as the reader sees them |
| `Bits`, `Decimal`, `Wrappers` | bytes and bitwise operations on naturals, decimal text, `Option` |

`dafny verify dfyconfig.toml` checks everything.

## Publish/subscribe server

`Broker` gives the state (client records, watched descriptors, history of what was sent) and
`Step`, one turn of the dispatch loop. `Delivery.Ledger` is the reference: for one client id and
one topic it knows only whether the client is online, on which socket, the flags of its
subscriptions to the topic, and which packets are owed. The main theorem says that in every run
what was sent to the client on the topic, followed by what is stored for it, is exactly what the
ledger owes. `Server` is the same server in place, with client, topic and server objects; each
handler is proved to take the step of `Broker`, and `Serve` carries whole runs out on the objects.

Environment: `select` reports watched descriptors up to `fdmax`; `accept` returns a descriptor
that is not open (`Enabled`). Records of disconnected clients keep their old number, so an open
descriptor may still be stored in other records. The theorem needs that it does no harm there
(`Harmless`): such records come after the record of the client that connects, and have no topic
left. `HarmlessIff` says that this is exact: after any other connection a run follows, harmless
otherwise, in which a packet that is owed is not delivered. `ReusedDescriptorMisroutes` is a concrete
run, and the three `...ReachesOwnerIff` lemmas say exactly when a single action reaches the client
that sent it. `send` delivers.

Results that contradict what one would expect of the code: on the empty topic the theorem is
false, because unsubscribing renames a slot to the empty topic (`DeliveryIff`). Packets of
different topics are not always flushed in the order in which they were published
(`TopicsReordered` is such a run): they are exactly when they were published in the order of the
subscriptions that keep them (`BacklogInOrderIff`, `FlushInOrderIff`). The comment in `helper.c`
that a client cannot subscribe twice to one topic is not enforced by the code; delivery is exactly
once in spite of that.

## Link emulator and file transfer

The two threads of the link are a state machine over atomic steps, one for each region between
lock and unlock and each local step. The clock may return anything. `LinkThreads` carries the
steps, and whole interleavings (`Emulate`), out on the linked queues of `LinkQueue`. The assertion
before the wait on the condition variable can fail (`AssertionCanFail`), exactly when a message
was put after the scheduler last looked at the buffer, on an idle link (`RestAbortsIff`). From
every reachable state in which the scheduler has not missed a message in this way, everything
accepted can still be delivered; otherwise it never is (`DeliverableIff`). Every message leaves the link no earlier than the serialization delay and the
propagation delay after it entered the channel, and the channel holds one message at a time,
whatever the clock does (`EachIsDelayed`).

`FileTransfer` runs sender and receiver over lossless FIFO channels under any schedule. It
completes exactly when the window is no larger than the number of chunks; with a larger window
every schedule ends in a deadlock.

## Router

`ip_checksum` equals the complement of the sum of sections 1 and 2 of RFC 1071 exactly on data
that is not all zero, for every alignment. `icmp_checksum` folds twice and is right exactly when
that is enough; data on which it is not is `CarryIsLeft`. `check_packet` keeps headers valid. The
route lookup is a masked binary search. Two promises fail on some sorted tables: a matching route
may be missed (`MissedRoute`), and a shorter prefix may be returned (`NotLongestPrefix`). For
given routes and a destination, `ExactIff`, `LongestReturnedIff` and `LongestPrefixMatchIff` say
exactly when every sorted table of the routes keeps them. On any table the inner scan moves to the
start of an unbroken run of ever longer masks under one prefix (`LongestMask`); in the order of
the comparison it moves once at most (`CmpOrderScan`), and it may move on to an entry that does
not match (`ScanMoves`, `CmpOrderMatchIff`). Sortedness is a premise, because the
comparison given to `qsort` is no order (`CmpIff`, `CmpHasCycles`). A comment in `get_best_route`
says that it looks for the longest prefix; on a sorted table that inner loop never moves
(`LookupSound`).

## HTTP

The reader returns the whole stream and a NUL for every way of splitting the stream into reads
exactly when no beginning of the stream makes a round settle on a total short of the stream's end
(`WholeStreamIff`, for every stream). If the header announces a length, this says that it promises
at least the whole stream or that there is no body (`PromiseKeptIff`); without an empty line or
without a content length it always holds (`NoLengthIsWhole`). A response that is framed by the
length of its body is returned whole for every splitting, and the reader can stop exactly behind
it (`ResponseIsRead`, `ResponseEnds`). The case of letters makes no difference
(`CaseMakesNoDifference`). From the POST writer's output, cut at the line ends, the url, the host,
the content type and the cookies are read back, and the reader's searches find exactly the body
fields (`HeaderRoundTrip`, `PostRoundTrip`).

## Model

| member | source | states |
|---|---|---|
| Broker.FirstBySocket | tcp & udp communication/helper.c:122-123 | the result is the first record with the socket, or the number of records |
| Broker.FirstTaker | tcp & udp communication/helper.c:81-115 | the result is the first slot that sends or stores a packet on the topic |
| Broker.FirstHolder | tcp & udp communication/server.c:173-185 | the result is the first record with the socket that has a slot for the topic |
| Broker.Highest | tcp & udp communication/server.c:161-166 | the highest watched descriptor above 2, or fdmax unchanged when there is none |
| BrokerInvariant.OfferedOk | tcp & udp communication/helper.c:86-107 | storing a packet keeps counts within capacity and everything in the first matching slot |
| BrokerInvariant.OwnerHolds | tcp & udp communication/server.c:173-185 | an unsubscription changes at most the record of the client that sends it, also when later records have its descriptor |
| BrokerInvariant.LiveOwner | tcp & udp communication/helper.c:122-123 | the first record with a live socket is the connected client that owns it |
| BrokerInvariant.HighestKeeps | tcp & udp communication/server.c:161-166 | recomputing fdmax loses no watched descriptor |
| BrokerInvariant.StepInv | tcp & udp communication/server.c:73-195 | every event keeps: distinct ids, no record of a connected client's descriptor before its own or with a topic, nothing stored while connected, allocated queues while disconnected, exactly the live sockets watched |
| BrokerInvariant.ReachableInv | tcp & udp communication/server.c:68-196 | the invariant holds after every possible harmless run |
| BrokerInvariant.ReachableQueues | tcp & udp communication/helper.c:89-139 | after every harmless run queues hold ten cells, or ten doubled so often that more than half of them are in use; none are held for a connected client |
| Delivery.TakerIff | tcp & udp communication/helper.c:81-115 | a connected client takes a packet iff it has a flag for the topic, a disconnected one iff some flag is 1 |
| Delivery.FlagsRenamed | tcp & udp communication/server.c:177-182 | renaming the first slot removes exactly the first flag of the topic |
| Delivery.FlushIsWaiting | tcp & udp communication/helper.c:225-233 | reconnecting sends on each topic exactly what waited for it, in order |
| Delivery.SentNowTo | tcp & udp communication/helper.c:108-115 | a publish sends each client at most one copy, whatever the other clients do |
| Delivery.SentOrStored | tcp & udp communication/helper.c:79-119 | a record that takes a packet sends it or stores it behind all the others, once |
| Delivery.DatagramDelivered | tcp & udp communication/helper.c:79-119 | one publish adds one packet for a client with a slot that takes it and nothing for any other client or topic |
| Delivery.ReconnectAgrees | tcp & udp communication/helper.c:219-246 | reconnecting moves what waits to what was sent and changes nothing for other clients |
| Delivery.HangUpAgrees | tcp & udp communication/helper.c:121-146 | disconnecting keeps the agreement with the ledger |
| Delivery.ActionAgrees | tcp & udp communication/server.c:168-192 | subscribing and unsubscribing keep the agreement with the ledger for every topic but the empty one |
| Delivery.RunAgrees | tcp & udp communication/server.c:68-196 | after every harmless run the server agrees with the ledger about connection, flags and packets |
| Delivery.DeliveredIsOwed | tcp & udp communication/helper.c:79-246 | in every harmless run sent followed by stored equals what is owed |
| Delivery.SentOnLiveSocket | tcp & udp communication/helper.c:111-113 | whatever an event sends goes to a client that is connected afterwards, on the socket it has then |
| DeliveryLimits.ExactlyOnceInOrder | tcp & udp communication/helper.c:79-246 | while a store-and-forward subscription lasts, exactly the published packets are sent or stored, in order, through any disconnections |
| DeliveryLimits.EmptyTopicLeaks | tcp & udp communication/server.c:180-180 | a run in which a client is sent a packet it is not owed, on the empty topic |
| DeliveryLimits.DeliveryIff | tcp & udp communication/helper.c:79-246 | the delivery theorem holds for a topic in all harmless runs iff the topic is not empty |
| DeliveryLimits.ReusedDescriptorMisroutes | tcp & udp communication/helper.c:162-175 | a run with a reused descriptor in which a subscription is lost and a packet is stored beyond the capacity |
| DeliveryLimits.FirstEventIff | tcp & udp communication/server.c:66-72 | every run begins with a connection iff the UDP socket is above the TCP socket, because fdmax starts at the latter |
| DeliveryLimits.BacklogInOrderIff | tcp & udp communication/helper.c:79-107 | what is stored for an offline client with empty queues is, slot by slot, what it keeps of any packets in their order iff they were published in the order of the slots that keep them |
| DeliveryLimits.FlushInOrderIff | tcp & udp communication/helper.c:225-233 | a client that hangs up in a reachable state and returns after any publishes is sent what it keeps of them in the published order iff that is the order of its slots |
| DeliveryLimits.TopicsReordered | tcp & udp communication/helper.c:225-233 | a run in which packets published y then x are sent x then y |
| DescriptorReuse.EarlierIsHarmful | tcp & udp communication/helper.c:122-123 | a descriptor stored in a record before the client's own: a run follows in which a subscription is lost |
| DescriptorReuse.TopicIsHarmful | tcp & udp communication/server.c:173-185 | a descriptor stored in another record with a topic: a run follows in which that record's client loses its subscriptions |
| DescriptorReuse.HarmlessIff | tcp & udp communication/server.c:77-126 | after a harmless run, an event keeps the delivery theorem in all harmless continuations iff it reuses no descriptor harmfully |
| DeliveryLimits.SubscribeReachesOwnerIff | tcp & udp communication/helper.c:161-177 | a subscription changes its sender's record only, iff no earlier record has the socket |
| DeliveryLimits.HangUpReachesOwnerIff | tcp & udp communication/helper.c:122-143 | a disconnection changes its sender's record only, iff no earlier record has the socket |
| DeliveryLimits.UnsubscribeReachesOwnerIff | tcp & udp communication/server.c:173-185 | an unsubscription changes its sender's record only, iff no other holder comes first, nor any later one when the sender holds nothing |
| Server.Topic.Store | tcp & udp communication/helper.c:89-104 | with a positive capacity the store is in bounds and appends the packet |
| Server.Client.Offer | tcp & udp communication/helper.c:81-117 | the first slot that takes the packet stores it, or the caller is told to send it |
| Server.Client.Disconnect | tcp & udp communication/helper.c:126-139 | the client is offline with fresh queues for its store-and-forward slots |
| Server.Client.Reconnect | tcp & udp communication/helper.c:219-246 | the backlog is returned in slot order and all queues are empty |
| Server.Client.Subscribe | tcp & udp communication/helper.c:148-176 | a slot is appended within the capacity |
| Server.Client.Unsubscribe | tcp & udp communication/server.c:177-183 | the first slot for the topic loses its name; the result says whether there was one |
| Server.PubSub.GetClient | tcp & udp communication/helper.c:69-77 | the first client with the id |
| Server.PubSub.SendTcp | tcp & udp communication/helper.c:79-119 | every record has been offered the packet once, in order, and the sends are recorded |
| Server.PubSub.OnDatagram | tcp & udp communication/server.c:127-137 | refines the step for a datagram |
| Server.PubSub.OnHangUp | tcp & udp communication/server.c:155-167 | refines the step for a client that hangs up |
| Server.PubSub.OnAction | tcp & udp communication/server.c:168-192 | refines the step for a subscription or unsubscription |
| Server.PubSub.AddNewClient | tcp & udp communication/helper.c:192-217 | a connected record without slots is appended within the capacity |
| Server.PubSub.OnAccept | tcp & udp communication/server.c:77-126 | refines the step for a connection: new client, duplicate, or old client |
| Server.PubSub.LowerFdmax | tcp & udp communication/server.c:161-166 | fdmax is the highest watched descriptor |
| Server.PubSub.Handle | tcp & udp communication/server.c:73-195 | whenever stores have room, each event changes the objects as the step says, and what is added to them is new |
| Server.PubSub.Dispatch | tcp & udp communication/server.c:73-195 | each event keeps the invariant, so no store is out of bounds |
| Server.Serve | tcp & udp communication/server.c:68-196 | from a new server every possible harmless run leads the objects to the state after the run |
| Server.InvIsReady | tcp & udp communication/helper.c:89-104 | in a reachable state every slot that may store has an allocated queue |
| Link.ConservedStep | labs/Sliding Window-lab3/link_emulator/link.c:178-318 | no step of either thread loses, doubles or reorders an accepted message |
| Link.DecidedStep | labs/Sliding Window-lab3/link_emulator/link.c:284-318 | each arrival is dropped for lack of room or by loss, or accepted as it is or with one bit flipped |
| Link.BoundedStep | labs/Sliding Window-lab3/link_emulator/link.c:219-314 | tests made in one critical section still hold in the next |
| Link.PacedStep | labs/Sliding Window-lab3/link_emulator/link.c:187-247 | finish times stay spaced and no message leaves early |
| Link.WaitsStep | labs/Sliding Window-lab3/link_emulator/link.c:253-278 | sleeps and blocks are justified after every step |
| Link.ReachableInv | labs/Sliding Window-lab3/link_emulator/link.c:178-318 | all invariants hold in every interleaving |
| Link.FifoDelivery | labs/Sliding Window-lab3/link_emulator/link.c:178-318 | accepted equals delivered, in the scheduler's hand, in flight and buffered, in order |
| Link.TimedStep | labs/Sliding Window-lab3/link_emulator/link.c:187-247 | every step keeps: messages in flight are due a serialization and a propagation delay after they entered the channel, and none has left earlier |
| Link.EachIsDelayed | labs/Sliding Window-lab3/link_emulator/link.c:187-247 | in every interleaving and for any clock, message k leaves at least both delays after it entered, messages enter a serialization delay apart, and the last one in flight is due the propagation delay after the channel is idle |
| Link.BandwidthDelay | labs/Sliding Window-lab3/link_emulator/link.c:187-247 | finish times a serialization delay apart, and a bound on the messages in flight, for any clock |
| Link.BufferIsSafe | labs/Sliding Window-lab3/link_emulator/link.c:219-314 | the buffer keeps its bound, a message is turned away iff a thousand are buffered, and dequeue never returns NULL |
| Link.SchedulerWaits | labs/Sliding Window-lab3/link_emulator/link.c:253-278 | blocks only with nothing in flight, loses no wake-up, sleeps until the earlier of the channel's end and the oldest finish time, sleeps iff the channel is busy or something is in flight, and for zero iff the channel is idle then |
| Link.RestAbortsIff | labs/Sliding Window-lab3/link_emulator/link.c:261-278 | the assertion before the wait fails iff a message was put since the last look at the buffer, on an idle link |
| Link.AssertionCanFail | labs/Sliding Window-lab3/link_emulator/link.c:271-272 | a run in which it fails |
| Link.LossRate | labs/Sliding Window-lab3/link_emulator/link.c:300-300 | exactly loss of the hundred draws drop a message |
| Link.DamageRate | labs/Sliding Window-lab3/link_emulator/link.c:305-309 | exactly corrupt of the hundred draws change it, the others leave it as it is |
| Link.DamageIsNoticed | labs/Sliding Window-lab3/link_emulator/link.c:305-309 | if arrivals carry correct checksums, an accepted message passes the receiver's check iff the link did not touch it |
| LinkProgress.DoomedForever | labs/Sliding Window-lab3/link_emulator/link.c:253-278 | once the scheduler has missed a message on an idle link, the buffer is never delivered, whatever the threads do |
| LinkProgress.DeliverAll | labs/Sliding Window-lab3/link_emulator/link.c:186-279 | from every other reachable state the scheduler alone can deliver everything |
| LinkProgress.DeliverableIff | labs/Sliding Window-lab3/link_emulator/link.c:178-318 | everything accepted can still be delivered iff the scheduler has not missed a message |
| LinkQueue.Queue.Enqueue | labs/Sliding Window-lab3/link_emulator/queue.c:7-24 | appends to the sequence; the assertion holds |
| LinkQueue.Queue.Dequeue | labs/Sliding Window-lab3/link_emulator/queue.c:26-49 | removes the oldest, NULL iff empty; the assertions hold |
| LinkQueue.Queue.Walk | labs/Sliding Window-lab3/link_emulator/queue.c:7-58 | the prev chain from last reaches exactly the queued values |
| LinkThreads.Emulator.CheckSpace | labs/Sliding Window-lab3/link_emulator/link.c:296-298 | refines the first critical section of the forwarder |
| LinkThreads.Emulator.PutMessage | labs/Sliding Window-lab3/link_emulator/link.c:311-314 | refines the second critical section of the forwarder |
| LinkThreads.Emulator.DrainOne | labs/Sliding Window-lab3/link_emulator/link.c:194-206 | refines one turn of the draining loop |
| LinkThreads.Emulator.PeekBuffer | labs/Sliding Window-lab3/link_emulator/link.c:219-221 | refines the look at the buffer |
| LinkThreads.Emulator.TestIdle | labs/Sliding Window-lab3/link_emulator/link.c:232-233 | refines the test of the idle channel |
| LinkThreads.Emulator.TakeMessage | labs/Sliding Window-lab3/link_emulator/link.c:238-242 | refines taking a message, which is there in every reachable state |
| LinkThreads.Emulator.PutInFlight | labs/Sliding Window-lab3/link_emulator/link.c:243-247 | refines putting the message in flight |
| LinkThreads.Emulator.Rest | labs/Sliding Window-lab3/link_emulator/link.c:253-278 | refines the computation of the time to sleep |
| LinkThreads.Emulator.Perform | labs/Sliding Window-lab3/link_emulator/link.c:178-318 | refines every step of either thread, with the threads' local variables |
| LinkThreads.Emulate | labs/Sliding Window-lab3/link_emulator/link.c:178-318 | from a new emulator every interleaving leads the queues to the state after it |
| Message.GetChecksum | labs/Sliding Window-lab3/send.c:23-32 | the bit-by-bit sum is the exclusive or of all bytes |
| Message.XorAppend | labs/Sliding Window-lab3/send.c:23-32 | the checksum of no bytes is 0, of one byte the byte, and of two parts the exclusive or |
| Message.Seal | labs/Sliding Window-lab3/send.c:40-43 | a message with the computed checksum passes the receiver's test |
| Message.CheckChecksum | labs/Sliding Window-lab3/recv.c:12-23 | the receiver's loops and comparison decide exactly that test |
| Message.FlipIsOneBit | labs/Sliding Window-lab3/link_emulator/link.c:307-308 | one bit of one byte changes and nothing else |
| Message.XorFlipped | labs/Sliding Window-lab3/link_emulator/link.c:307-308 | flipping a bit of the payload flips that bit of the checksum |
| Message.FlipIsNoticed | labs/Sliding Window-lab3/recv.c:12-23 | a correct message fails the check after any single-bit flip |
| FileTransfer.OffsetStep | labs/Sliding Window-lab3/send.c:65-99 | consecutive reads cut the file into chunks without gap |
| FileTransfer.SenderInv | labs/Sliding Window-lab3/send.c:34-107 | every sender step keeps the protocol invariant |
| FileTransfer.ReceiverInv | labs/Sliding Window-lab3/recv.c:46-77 | every receiver step keeps the protocol invariant |
| FileTransfer.SizeIsRead | labs/Sliding Window-lab3/recv.c:58-58 | the printed file size is read back |
| FileTransfer.RankDecreases | labs/Sliding Window-lab3/send.c:65-103 | every step of either process brings the end closer |
| FileTransfer.RunsEnd | labs/Sliding Window-lab3/send.c:34-107 | every schedule has a bounded number of steps |
| FileTransfer.FewUnacknowledged | labs/Sliding Window-lab3/send.c:65-103 | at most window_size + 1 chunks are unacknowledged |
| FileTransfer.StuckIsComplete | labs/Sliding Window-lab3/send.c:60-103 | with a window that fits, processes that cannot move have copied the file, under its name with _copy, and consumed every acknowledgement |
| FileTransfer.LargeWindowNeverEnds | labs/Sliding Window-lab3/send.c:101-103 | with a larger window the sender never ends |
| FileTransfer.TransferCompletesIff | labs/Sliding Window-lab3/send.c:60-103 | every maximal schedule completes iff the window is at most the number of chunks |
| FileTransfer.WindowFitsIff | labs/Sliding Window-lab3/send.c:63-63 | the window fits iff the command line argument is small enough for the file |
| Checksum.IpChecksum | router/skel.c:158-208 | for every alignment and data up to the overflow bound, the complement of the RFC 1071 sum with the non-zero representative |
| Checksum.AddWords | router/skel.c:160-173 | the accumulator represents the byte sum in the order of the alignment and does not overflow |
| Checksum.AddWholeWords | router/skel.c:177-185 | the loop over whole words keeps that and leaves less than a word |
| Checksum.AddTail | router/skel.c:186-193 | the zero-padded tail completes the sum |
| Checksum.FoldCarries | router/skel.c:195-199 | the carry loop ends with the one's-complement representation |
| Checksum.FixOddStart | router/skel.c:201-205 | swapping the bytes compensates for an odd start |
| Checksum.OnesSumIsCanon | router/skel.c:158-208 | the end-around-carry sum of RFC 1071 is the representation of the plain sum |
| Checksum.TotalOtherOrder | router/skel.c:201-205 | summing in the other byte order swaps the sum |
| Checksum.IpFieldIsRfcIff | router/skel.c:158-208 | the result is the RFC 1071 checksum iff the data is not all zero |
| Checksum.IcmpChecksum | router/skel.c:142-156 | the stored field is right iff two folds suffice and, on odd lengths, the byte behind the data is zero |
| Checksum.IcmpFoldIff | router/skel.c:153-155 | two folds give the one's-complement sum iff no carry is left |
| Checksum.IcmpFieldIsRfcIff | router/skel.c:142-156 | on even lengths the result is the RFC 1071 checksum iff two folds suffice |
| Checksum.ChecksumsAgreeIff | router/skel.c:142-208 | both functions store the same bytes iff the data is not all zero and two folds suffice, as below 2^32; on zeros ffff and 0 |
| Checksum.CarryIsLeft | router/skel.c:153-155 | data on which two folds do not suffice and the result is wrong |
| Checksum.IcmpOddIff | router/skel.c:150-155 | on odd lengths the result is right iff the byte after the data is zero and two folds suffice |
| PacketCheck.CheckPacket | router/helper.c:185-219 | the four outcomes, and the header changed only when it is forwarded or unreachable; with a route to one address only, an accepted header is forwarded iff its bytes 16 to 19 are that address |
| PacketCheck.SameDestination | router/helper.c:210-210 | the next hop depends on bytes 16 to 19 of the header only |
| PacketCheck.HostRouteIff | router/helper.c:210-219 | with the stored route a.b.c.d/32 the next hop is it for the destination a.b.c.d, and nothing for any other |
| PacketCheck.StoredChecksumVerifies | router/helper.c:206-207 | storing the checksum of a header with a zero field makes it verify |
| PacketCheck.UpdatedHeader | router/helper.c:204-207 | a header that verifies leaves with ttl - 1, verifies again, and has the incremental checksum of section 3 of RFC 1624 |
| RouteLookup.GetBestRoute | router/helper.c:74-101 | the loop terminates on every table and computes the lookup |
| RouteLookup.LongestMask | router/helper.c:85-92 | on every table: down to the last entry of an unbroken run of longer masks under the same prefix, and no further |
| RouteLookup.SettleIs | router/helper.c:85-92 | these two properties determine the entry |
| RouteLookup.MatchesSomeIff | router/helper.c:81-82 | an entry matches some destination iff its prefix lies under its mask |
| RouteLookup.LookupSound | router/helper.c:74-101 | on a sorted table the inner scan never moves and an entry that is returned matches |
| RouteLookup.LookupExact | router/helper.c:77-100 | on one sorted table: when probes never send the search away from a match, NULL iff a linear scan finds nothing |
| RouteLookup.ExactIff | router/helper.c:77-100 | for any routes and destination: NULL iff a linear scan finds nothing, on every sorted table of the routes, iff of any two routes in sort order neither sends the search away from the other when that one matches |
| RouteLookup.LongestReturnedIff | router/helper.c:82-93 | what is returned is a longest match, on every sorted table of the routes, iff all matching routes have the same mask |
| RouteLookup.LongestPrefixMatchIff | router/helper.c:74-101 | both promises hold on every sorted table of the routes iff both conditions do |
| RouteLookup.ExactForOneMask | router/helper.c:77-100 | exact when all masks are equal |
| RouteLookup.ExactForDisjointBlocks | router/helper.c:77-100 | exact when entries are pairwise disjoint blocks, with masks that are contiguous as the little-endian host reads them |
| RouteLookup.OrdinaryMaskIff | router/helper.c:38-39 | a mask that is contiguous in network order is so in the host's reading iff it is /0 or /32 |
| RouteLookup.MissedRoute | router/helper.c:82-98 | a sorted table on which a matching route is not found |
| RouteLookup.NotLongestPrefix | router/helper.c:85-93 | a sorted table on which the shorter prefix is returned |
| RouteLookup.CmpIff | router/helper.c:154-162 | the comparison puts an entry strictly first as it should iff the compared prefixes, or the masks under equal prefixes, are less than half the range apart; equal only when both are |
| RouteLookup.CmpOrderScan | router/helper.c:85-92 | in the order of the comparison the inner scan moves at most once, exactly to an entry whose mask is longer by half the range |
| RouteLookup.CmpOrderLongestIff | router/helper.c:85-92 | it finds the longest mask under the prefix up to the probe iff the entry before the probe is longer whenever any is |
| RouteLookup.CmpOrderMatchIff | router/helper.c:74-101 | for any routes and destination: every table in that order returns matching entries only, iff the scan does not move from a matching to another route |
| RouteLookup.ScanMoves | router/helper.c:85-92 | a table on which it moves from the /24 to the /25, for addresses inside and outside the /25 |
| RouteLookup.CmpHasCycles | router/helper.c:154-162 | three entries, each less than the next, in a circle |
| HttpSearch.FindSpec | labs/HTTP-lab10/buffer.c:41-85 | the result is the first match, and -1 means that there is none |
| HttpSearch.FindStable | labs/HTTP-lab10/buffer.c:41-85 | a beginning of the text gives the same first match iff it contains it |
| HttpSearch.FindGrows | labs/HTTP-lab10/buffer.c:41-85 | what was found stays found when the text grows |
| HttpSearch.SameIff | labs/HTTP-lab10/buffer.c:75-75 | without regard to case, two characters are the same iff they are equal or the two cases of a letter |
| HttpSearch.FindRelated | labs/HTTP-lab10/buffer.c:63-85 | the case of letters in the text does not change the result of a case-insensitive search |
| HttpBuffer.Buffer.Add | labs/HTTP-lab10/buffer.c:28-39 | the bytes are appended |
| HttpBuffer.Buffer.FindFirst | labs/HTTP-lab10/buffer.c:41-85 | the loops compute the first match |
| HttpBuffer.Buffer.Destroy | labs/HTTP-lab10/buffer.c:13-21 | the buffer is empty |
| HttpReader.ReceiveFromServer | labs/HTTP-lab10/helpers.c:73-126 | the loops compute the specification of the reader |
| HttpReader.ReceiveHeader | labs/HTTP-lab10/helpers.c:80-109 | the first loop |
| HttpReader.ReceiveBody | labs/HTTP-lab10/helpers.c:111-123 | the second loop |
| HttpReader.StrtolPrefix | labs/HTTP-lab10/helpers.c:105-105 | a number that ends inside the buffer is read the same when more arrives |
| HttpReader.HeaderIsFound | labs/HTTP-lab10/helpers.c:80-109 | whatever the pieces, the header and the right total are found |
| HttpReader.AtLeastPromised | labs/HTTP-lab10/helpers.c:73-126 | however the stream is split, at least what the header promises is returned, or everything |
| HttpReader.WholeStreamIff | labs/HTTP-lab10/helpers.c:73-126 | any stream is returned whole for every splitting iff no round that starts short of its end settles on a total short of its end |
| HttpReader.PromiseKeptIff | labs/HTTP-lab10/helpers.c:73-126 | a stream with a header that announces a length is returned whole for every splitting iff the header promises at least the stream or there is no body |
| HttpReader.NoLengthIsWhole | labs/HTTP-lab10/helpers.c:73-126 | a stream without an empty line or without a content length is always returned whole |
| HttpReader.CaseMakesNoDifference | labs/HTTP-lab10/helpers.c:73-126 | if two servers send the same but for the case of letters, the reader returns the same but for that |
| HttpResponse.ResponseIsRead | labs/HTTP-lab10/helpers.c:73-126 | a response with the length of its body in the header is returned whole for every splitting |
| HttpResponse.ResponseEnds | labs/HTTP-lab10/helpers.c:111-123 | whatever follows it, there is a splitting for which exactly the response is returned |
| HttpRequest.JoinFields | labs/HTTP-lab10/requests.c:61-70 | the fields are joined with '&' and the size is the length of the result |
| HttpRequest.ComputePostRequest | labs/HTTP-lab10/requests.c:42-88 | the statements write the message from which url, host, content type, length, cookies and body fields can be read back |
| HttpRequest.HeaderRoundTrip | labs/HTTP-lab10/requests.c:50-83 | cut at the line ends, the message gives back url, host, content type, length and cookies, in the order of the lines |
| HttpRequest.FieldsRoundTrip | labs/HTTP-lab10/requests.c:61-70 | fields without '&' are what the joined text gives when it is cut at each '&' |
| HttpRequest.HeaderEnd | labs/HTTP-lab10/helpers.c:93-96 | the first empty line ends the header |
| HttpRequest.LengthPosition | labs/HTTP-lab10/helpers.c:98-104 | the first Content-Length text is the header of that name |
| HttpRequest.PostRoundTrip | labs/HTTP-lab10/requests.c:42-88 | the reader's searches find exactly the joined body in the written message, with only a line end behind it |
| Decimal.NoLeadingZero | labs/HTTP-lab10/requests.c:71-71 | the ten digits are the usual ones, and a printed number begins with 0 iff it is 0 |
| Decimal.ReadSigned | labs/HTTP-lab10/helpers.c:105-105 | spaces, a sign and a number of any size are read as the nearest 64-bit value |
| Decimal.NotANumber | labs/HTTP-lab10/helpers.c:105-105 | where no space, sign or digit stands, 0 is read |
| Decimal.ReadBack | labs/HTTP-lab10/requests.c:71-71 | a printed number is read back whatever surrounds it, if no digit follows |

## Left out

- LookupExact: about one table, and sufficient only; `ExactIff` is exact for all sorted tables of the same routes.
- ExactForDisjointBlocks: not about ordinary prefixes of length 1 to 31, whose stored masks the host does not read as contiguous; `ExactIff` covers them.
- WindowFitsIff: the window is computed without overflow; `count * 100` overflows for large counts and `8 * size` for files of 2^28 bytes and more.
- Sockets, `select`, files, printing and memory release are event, stream or channel inputs and histories of what was sent; errors of system calls that end the program are not modelled.
- Stored packets are values: one packet object shared by several clients, and freed by each of them, is not modelled. The formatting of packets (`udp_to_tcp`) and over-long ids and topics are not modelled either.
- The arrays of clients and slots are sequences with a capacity beside them; the packet arrays show their allocated cells.
- The commands on standard input of the server, and `subscriber.c`.
- The link's times are unbounded integers (the source uses 64 bits, signed and unsigned); the first message in each direction, which only registers the peer, and the reverse direction are left out.
- A message is damaged only where the source defines it: with length 0 it divides by zero when it picks a byte, and beyond 1396 it may leave the payload. Dropping such messages and forwarding them undamaged is modelled.
- The transfer is a state machine, because its two loops run in different processes; the 100 warm-up messages, the contents of acknowledgements, and the checksums (see `Message`) are left out. An empty file makes the source divide by zero.
- Strtol: the end of the buffer ends the number; the source's buffer has no terminating NUL there. `PromiseKeptIff` is about streams whose number ends inside the header.
- Buffer positions fit an `int`; the fixed line and message buffers of the request writer can overflow in the source and are unbounded here; `compute_get_request` writes a subset of the same lines.
- The routing table is given; its length is the constant N of a header file that is not part of this model. The ARP table, the queue of waiting packets and `forward`.
- The other assignments: duplicates of the code above or thin input and output.

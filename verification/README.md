# Verification of the user-space networking stack

A Dafny model of the USN stack and its two applications, and proofs about it. The stack is a small
user-space TCP/UDP implementation (reassembly buffer, retransmission queue, RTO estimator, congestion
controller, frame codecs) over lock-free rings and a block pool; on top of it run an order client and an
order gateway (TCP) and a market-data publisher and subscriber (UDP).

`dafny verify dfyconfig.toml` checks the whole project.

## How the model is built

* Code that changes state in place is a class (or a method over an array) whose methods are proved equal to
  a function on values; the theorems are about those functions.
* The order protocol, `MpscQueue` and the concurrent `PacketRing` are step systems. A step is a total
  function of the state and an event, an event that is not enabled changes nothing, and a run is any
  sequence of events, so a statement about every run quantifies over every interleaving.
* Unsigned arithmetic that can wrap is written with its modulus (`Add32`, `Add64`, `Sub64`). Millisecond
  clocks and 64-bit counters of the feed are unbounded.

| file | contents |
|---|---|
| `Words.dfy` | words, bytes, small arithmetic lemmas |
| `Reassembly.dfy`, `HoleAccounting.dfy` | TcpReassemblyBuffer; what its hole functions mean as sets |
| `Retransmission.dfy`, `RtoEstimator.dfy`, `Congestion.dfy` | TcpRetransmissionQueue, TcpRtoEstimator, TcpCongestionController |
| `OrderMessages.dfy`, `StateMachine.dfy` | order structs as bytes and their effects; TcpConnection and handle_incoming |
| `Gateway.dfy`, `Client.dfy` | the two order applications, one connection |
| `OrderProtocol.dfy` | both ends joined by a network that loses, duplicates, reorders and delays |
| `GatewayInvariant.dfy`, `QueueHistory.dfy`, `ProtocolInvariant.dfy` | the invariant of the protocol |
| `ProtocolTheorems.dfy` | what holds in every reachable state of the protocol |
| `TimerTheorems.dfy`, `ClientTheorems.dfy` | what the client retransmits and when; when and what it sends, and what an answer does |
| `RingIndex.dfy` | capacity rounding and masking |
| `MpscQueue.dfy`, `MpscInvariant.dfy`, `MpscTheorems.dfy` | the multi-producer queue as interleaved steps |
| `PacketRing.dfy`, `PacketRingSteps.dfy` | the packet ring as an object, and as interleaved steps |
| `MemoryPool.dfy` | the free-list block pool |
| `Checksum.dfy`, `UdpProtocol.dfy`, `TcpProtocol.dfy` | ones-complement checksum and frame codecs |
| `MarketFeed.dfy` | publisher, subscriber and both together |

## Environment assumptions

* Order protocol: one connection to a fresh gateway, one frame per read, sequence numbers below 2^32 (the
  client stops sending before they would wrap), frames carry their bytes by value. What the peer reads as
  window is arbitrary, because the frame layout mixes it with the checksum (see `TcpProtocol.BuildThenParse`).
  The client's random draws, the clock and the measured round-trip times are event parameters.
* Rings: each load, compare-and-swap, slot access and store is one atomic step of a sequentially consistent
  interleaving; positions stay below 2^64.
* Hosts are little-endian.

## Where the code differs from what one would expect

* A keepalive ends the connection. The gateway never moves a connection out of `CLOSED`
  (apps/order_tcp/order_gateway.cpp:162-169), so the test after the control path
  (apps/order_tcp/order_gateway.cpp:318-322) erases the context on the first bare ACK. Safety is unaffected,
  delivery stops: `ProtocolTheorems.KeepaliveEndsDelivery`, with a lost request in
  `ProtocolTheorems.KeepaliveLosesRequest`. The connection is open exactly as long as no keepalive has been
  read (`ProtocolTheorems.OpenExactly`), and a request is delivered exactly when it and all before it were read
  by then (`ProtocolTheorems.DeliveredExactly`). For the same reason the client's own teardown never sends a FIN.
* `create_data` followed by `validate_checksum` succeeds exactly when the low byte of the window is zero:
  `TcpProtocol.BuiltValidatesIff`.
* `encapsulate` followed by `parse` returns the payload exactly when it fits the 16-bit length field:
  `UdpProtocol.BuildThenParse`.
* Hole accounting is exact if and only if no key lies beyond every 32-bit end computed before it while an
  earlier segment crosses 2^32: `HoleAccounting.HolesExactIff`. `HoleAccounting.WrappedSegmentReportedMissing`
  is a buffer on which it is not; without wrap it always is (`HoleAccounting.NoWrapNeverStranded`).
* `try_push` of the multi-producer queue may refuse on a queue that has room:
  `MpscTheorems.RefusedIffFullOrStale`, with a run in `MpscTheorems.StaleTailRefused`.
* Capacities above 2^63 round to zero: `RingIndex.RoundUpIsLeastPower`.
* A second `deallocate` of a free block ties the free list into a cycle: `MemoryPool.ReleaseWellFormedIff`.
  From then on `available()` counts every block of the pool as free: `MemoryPool.AvailableAfterSecondFree`.

## Model

| member | source | states |
|---|---|---|
| ProtocolTheorems.ExactlyOnceInOrder | apps/order_tcp/order_gateway.cpp:201-263 | in every reachable state the processed requests are a prefix of the requests sent: in order, each exactly once |
| ProtocolTheorems.ProcessedOnlyGrows | apps/order_tcp/order_gateway.cpp:265-350 | no continuation of a run takes back or alters a processed request |
| ProtocolTheorems.DeliveryIsMaximal | apps/order_tcp/order_gateway.cpp:327-349 | in every reachable state no parked segment is the next one, and the first k requests are processed exactly when all of them have arrived, in any order |
| ProtocolTheorems.DeliveredExactly | apps/order_tcp/order_gateway.cpp:265-350 | after every run the first k requests are processed exactly when the gateway has read each of them, in any order, before any keepalive |
| ProtocolTheorems.OpenExactly | apps/order_tcp/order_gateway.cpp:292-324 | after every run the connection is open exactly when no frame without payload was read |
| ProtocolTheorems.KeepaliveLosesRequest | apps/order_tcp/order_gateway.cpp:318-322 | a reachable state in which a request has been sent, reading its frame changes nothing, and no continuation processes it |
| ProtocolTheorems.NoSilentLoss | apps/order_tcp/order_client.cpp:287-324 | every request sent is processed, still tracked, or given up after exactly five collections |
| ProtocolTheorems.AckedWasProcessed | apps/order_tcp/order_client.cpp:363-374 | a request removed from the queue by any frame read, however late or repeated, has been processed by the gateway |
| ProtocolTheorems.OrderSetsAgree | apps/order_tcp/order_gateway.cpp:215-225 | live orders are the effects of the processed prefix, shadow keys those of the completed requests, they coincide when everything sent is processed and completed, and nothing is ever rejected |
| ProtocolTheorems.EveryRequestAnswered | apps/order_tcp/order_gateway.cpp:232-249 | every processed request is answered exactly once, in order, with an ack number covering exactly what was processed up to it and 24 bytes that read as its order number, that number plus a million, and accepted |
| ProtocolTheorems.ClientIndexesAgree | apps/order_tcp/order_client.cpp:241-324 | outstanding frames and queue have the same keys, the front-only ack equals filtering, the in-flight figure is exact, sent = acknowledged + dropped + tracked |
| ProtocolTheorems.BackoffBound | apps/order_tcp/order_client.cpp:311-343 | at most five retransmissions, the k-th no sooner than 50*(2^k - 1) ms after sending |
| ProtocolTheorems.TimeoutStaysClamped | apps/order_tcp/order_client.cpp:287-316 | the timeout handed to the queue is in [50, 5000] in every reachable state |
| ProtocolTheorems.GivenUpLate | include/usn/protocol/tcp_retransmission.hpp:42-60 | no request is given up before 3150 ms |
| ProtocolTheorems.WindowStaysHealthy | apps/order_tcp/order_client.cpp:241-249 | in every run the congestion window keeps its bounds and at most 2^20 bytes are in flight, with no assumption on the acks |
| ProtocolTheorems.KeepaliveEndsDelivery | apps/order_tcp/order_gateway.cpp:292-324 | a keepalive read by the gateway erases the connection; nothing is processed in any continuation |
| TimerTheorems.ResentExactly | apps/order_tcp/order_client.cpp:330-342 | a tick writes again, in queue order, exactly one frame with the original bytes for every tracked request whose deadline has passed and that has retries left |
| TimerTheorems.WrittenOncePerCollection | apps/order_tcp/order_client.cpp:311-343 | in every run a request has been put on the network once when sent and once more at every time recorded as a collection |
| TimerTheorems.FirstTickAfterDeadline | include/usn/protocol/tcp_retransmission.hpp:42-60 | over any run: a tracked request is collected at the first tick at or after its deadline and not before; the k-th collection makes it due again after exactly 2^k timeouts, and after five it is given up |
| TimerTheorems.SendArms | apps/order_tcp/order_client.cpp:287-287 | a new request is due exactly one timeout after it was written |
| TimerTheorems.LossIffResent | apps/order_tcp/order_client.cpp:326-329 | a tick that writes something again restarts slow start towards half the window; any other leaves the controller alone |
| ClientTheorems.SendsIffWindowsAllow | apps/order_tcp/order_client.cpp:241-249 | a request is sent exactly when the bytes under tracking and 40 more fit both windows; otherwise only an order number is used |
| ClientTheorems.OrderNumbersIncrease | apps/order_tcp/order_client.cpp:218-224 | order numbers of the requests sent increase, so no two are equal, and every request is well formed |
| ClientTheorems.RequestFollowsDraw | apps/order_tcp/order_client.cpp:226-234 | a drawn Cancel or Replace of an order in the shadow book is sent as such, anything else is a New |
| ClientTheorems.AnswerReports | apps/order_tcp/order_client.cpp:363-376 | an answer completes the request, sets the window, and reports to the controller exactly the bytes that left the queue |
| ClientTheorems.EstimatorSeesEveryAnswer | apps/order_tcp/order_client.cpp:376-402 | after every run the timeout is that of an estimator fed with the round-trip times of the answers read, in order, and nothing else |
| ClientTheorems.ShadowFollowsRequests | apps/order_tcp/order_client.cpp:403-418 | after every run the shadow book is the book of the completed requests |
| ClientTheorems.BookPrice | apps/order_tcp/order_client.cpp:403-418 | every order of that book carries the price of the last request about it |
| ProtocolInvariant.StepKeeps | apps/order_tcp/order_client.cpp:179-418 | every step of either end or of the network keeps the joint invariant |
| ProtocolInvariant.RunKeeps | apps/order_tcp/order_client.cpp:179-418 | so does every run |
| GatewayInvariant.RequestArrives | apps/order_tcp/order_gateway.cpp:326-349 | a frame of a sent request, in or out of order, new or repeated, keeps prefix delivery and counts as arrived |
| GatewayInvariant.ReplayKeeps | apps/order_tcp/order_gateway.cpp:342-349 | replaying the contiguous run processes exactly the next requests and leaves no parked segment at the new sequence number |
| GatewayInvariant.KeepaliveStep | apps/order_tcp/order_gateway.cpp:292-324 | a bare ACK changes no delivery state and closes the connection |
| GatewayInvariant.MaximalDelivery | apps/order_tcp/order_gateway.cpp:327-349 | requests 0..k-1 are processed exactly when all of them have arrived |
| QueueHistory.CollectKeepsQueue | include/usn/protocol/tcp_retransmission.hpp:42-60 | collection keeps the queue sorted, each entry's retry count equal to its collections, its deadline behind the backoff bound and one doubled timeout in [50, 5000] after it was last written |
| QueueHistory.CollectKeepsTimes | include/usn/protocol/tcp_retransmission.hpp:42-60 | each recorded collection respects 50*(2^k - 1) |
| QueueHistory.DroppedIsAbandoned | include/usn/protocol/tcp_retransmission.hpp:47-50 | an entry that collection erases had five collections and has waited 3150 ms |
| QueueHistory.AckKeeps | include/usn/protocol/tcp_retransmission.hpp:33-40 | a cumulative ack removes exactly the requests that end at or below it |
| QueueHistory.TrackKeeps | include/usn/protocol/tcp_retransmission.hpp:24-31 | tracking one more request keeps the queue sorted and consistent with its history, and adds exactly its start |
| QueueHistory.TrackKeepsGivenUp | include/usn/protocol/tcp_retransmission.hpp:24-31 | and leaves every given-up record valid |
| OrderGateway.GatewayConnection.ProcessOrderPayload | apps/order_tcp/order_gateway.cpp:201-263 | the in-place handling of one payload equals `Process`, and returns the ack it writes |
| OrderGateway.AnswerSays | apps/order_tcp/order_gateway.cpp:201-237 | for any state and payload the answer acknowledges the payload, names the order, and its accepted byte is 0 exactly for a Cancel or Replace of an order that is not live |
| OrderGateway.BooksAfter | apps/order_tcp/order_gateway.cpp:214-228 | which orders are live after any payload, and rejects counts exactly the answers with accepted byte 0 |
| OrderGateway.OutOfOrderParks | apps/order_tcp/order_gateway.cpp:326-341 | a payload of any length that is not the next one is parked with its own bytes, unless one is already, and nothing else changes |
| OrderGateway.PassiveClose | apps/order_tcp/order_gateway.cpp:291-324 | a FIN on an established connection is acknowledged and answered with a FIN; the acknowledgement of that one erases the connection |
| OrderGateway.FinOnClosed | apps/order_tcp/order_gateway.cpp:297-324 | a FIN on a connection still CLOSED is acknowledged and the connection erased |
| OrderGateway.GatewayConnection.ProcessRun | apps/order_tcp/order_gateway.cpp:346-348 | processes the replayed segments in order |
| OrderGateway.GatewayConnection.HandleData | apps/order_tcp/order_gateway.cpp:326-349 | parks, or processes and replays |
| OrderGateway.GatewayConnection.HandleControl | apps/order_tcp/order_gateway.cpp:291-324 | the control path, including the erased context |
| OrderGateway.GatewayConnection.HandleFrame | apps/order_tcp/order_gateway.cpp:284-349 | one frame taken from the ring equals `Receive` |
| OrderClient.ClientLoop.SendRequest | apps/order_tcp/order_client.cpp:217-289 | builds a request, uses up an order number, and sends and tracks it if both windows allow; stops if the write fails |
| OrderClient.ClientLoop.WaitTick | apps/order_tcp/order_client.cpp:311-343 | collects what is due, forgets what was given up, reports the loss and returns the frames written again |
| OrderClient.ClientLoop.ReadFrame | apps/order_tcp/order_client.cpp:348-418 | applies an acknowledgement to queue, frames, window, estimator and shadow book, or stops |
| OrderClient.ClientLoop.ForgetUntracked | apps/order_tcp/order_client.cpp:317-324 | keeps exactly the frames whose entry is still queued and counts the others |
| OrderClient.ClientLoop.ForgetAcked | apps/order_tcp/order_client.cpp:367-374 | keeps exactly the frames that end above the acknowledged number |
| OrderClient.MakeRequest | apps/order_tcp/order_client.cpp:218-234 | a Cancel or Replace always targets an order of the shadow book |
| OrderMessages.RequestRoundTrip | apps/common/messages.hpp:24-33 | decoding the 40 bytes of a request gives the request back |
| OrderMessages.BytesRoundTrip | apps/common/messages.hpp:24-33 | encoding what was decoded gives back every byte but the padding, whatever was received |
| OrderMessages.AckReads | apps/common/messages.hpp:36-40 | the answer's bytes read as order number, order number plus a million modulo 2^64, accepted flag and zero padding |
| OrderMessages.LiveIffOpened | apps/order_tcp/order_gateway.cpp:216-222 | an order is live exactly when a New opened it and no Cancel of it came later |
| StateMachine.BareAck | include/usn/protocol/tcp_state_machine.hpp:82-149 | a bare ACK moves no data sequence number, keeps a CLOSED connection CLOSED and raises recv_ack to the maximum |
| StateMachine.ThreeWayHandshake | include/usn/protocol/tcp_state_machine.hpp:82-111 | SYN, SYN+ACK and ACK bring both ends to ESTABLISHED, each expecting the number after the other's SYN |
| StateMachine.StaysOnDiagram | include/usn/protocol/tcp_state_machine.hpp:14-60 | no frame without payload moves the state other than along one edge of the diagram |
| StateMachine.TcpConnection.Incoming | include/usn/protocol/tcp_state_machine.hpp:82-149 | handle_incoming for frames without payload, branch by branch; every transition it asks for is legal, so it returns true |
| StateMachine.TcpConnection.Close | include/usn/protocol/tcp_state_machine.hpp:52-60 | only ESTABLISHED and CLOSE_WAIT connections can be closed |
| Retransmission.AckIsFilter | include/usn/protocol/tcp_retransmission.hpp:33-40 | on a sorted queue dropping from the front equals filtering by seq_end |
| Retransmission.CollectIsIdempotent | include/usn/protocol/tcp_retransmission.hpp:42-60 | a second collect_due at the same time returns nothing and changes nothing |
| Retransmission.DueMembers | include/usn/protocol/tcp_retransmission.hpp:46-51 | exactly the due entries with retries left are returned |
| Retransmission.KeptExactly | include/usn/protocol/tcp_retransmission.hpp:42-60 | an entry is left exactly if it was not due, or comes from a due one with retries left: one retry more, due after base * 2^k ms for the k-th, 256 * base beyond the eighth |
| Retransmission.DueSorted | include/usn/protocol/tcp_retransmission.hpp:44-51 | what is returned keeps the order of the queue |
| Retransmission.KeptFrom | include/usn/protocol/tcp_retransmission.hpp:44-58 | every entry left comes from one that was not exhausted, rescheduled if it was due |
| Retransmission.KeptContains | include/usn/protocol/tcp_retransmission.hpp:44-58 | every entry that was not exhausted is left |
| Retransmission.TcpRetransmissionQueue.TrackSegment | include/usn/protocol/tcp_retransmission.hpp:24-31 | appends the entry with its deadline |
| Retransmission.TcpRetransmissionQueue.AckUpTo | include/usn/protocol/tcp_retransmission.hpp:33-40 | the popping loop equals `DropAcked` and returns how many it removed |
| Retransmission.TcpRetransmissionQueue.CollectDue | include/usn/protocol/tcp_retransmission.hpp:42-60 | the erasing and editing loop equals `Due` and `Kept` |
| Retransmission.TcpRetransmissionQueue.Contains | include/usn/protocol/tcp_retransmission.hpp:64-71 | true exactly for tracked sequence numbers |
| RtoEstimation.RtoAlwaysClamped | include/usn/protocol/tcp_retransmission.hpp:79-98 | the timeout is in [50, 5000] after any samples |
| RtoEstimation.NoOverflow | include/usn/protocol/tcp_retransmission.hpp:79-96 | samples of at most M < 2^60 keep both averages at most M, and the 64-bit estimator equals the exact one |
| RtoEstimation.RtoSettles | include/usn/protocol/tcp_retransmission.hpp:79-96 | a constant RTT r settles, within an explicit number of samples and for good, to srtt in [r-7, r], rttvar <= r - srtt, timeout before clamping in [r-6, r+21] |
| RtoEstimation.FollowsRfc | include/usn/protocol/tcp_retransmission.hpp:79-96 | after any samples the estimator is that of section 2 of RFC 6298 over the reals, within 7 ms of SRTT, 10 of RTTVAR and 47 of RTO |
| RtoEstimation.FirstSample | include/usn/protocol/tcp_retransmission.hpp:83-86 | the timeout after one sample is three times the sample, less two if odd, clamped |
| RtoEstimation.TcpRtoEstimator.SampleRtt | include/usn/protocol/tcp_retransmission.hpp:79-96 | the field updates equal `Sample` |
| Congestion.AckSplittingIrrelevant | include/usn/protocol/tcp_congestion.hpp:32-39 | below the clamp any division of the acknowledged bytes gives the same controller |
| Congestion.LargestIncrement | include/usn/protocol/tcp_congestion.hpp:32-39 | the window grows by k segments or more exactly when k*cwnd + mss*k*(k-1)/2 <= accumulator + acknowledged |
| Congestion.RunStaysHealthy | include/usn/protocol/tcp_congestion.hpp:15-49 | over any run: mss <= cwnd <= 2^20, ssthresh >= 2*mss, accumulator zero in slow start |
| Congestion.PhaseIsMonotone | include/usn/protocol/tcp_congestion.hpp:25-43 | between losses cwnd never shrinks and avoidance never returns to slow start |
| Congestion.AckNoOverflow | include/usn/protocol/tcp_congestion.hpp:25-43 | no 32-bit value overflows for acks of at most 2^20 bytes |
| Congestion.SlowStartHealthy | include/usn/protocol/tcp_congestion.hpp:29-31 | slow start grows by the acknowledged bytes up to the clamp |
| Congestion.FreshSlowStart | include/usn/protocol/tcp_congestion.hpp:15-37 | from a new controller the window grows by exactly the acknowledged bytes, however split, until it reaches eight segments |
| Congestion.LossHealthy | include/usn/protocol/tcp_congestion.hpp:45-49 | a loss restarts slow start towards half the window, at least two segments |
| Congestion.TcpCongestionController.OnAcked | include/usn/protocol/tcp_congestion.hpp:25-43 | on_ack with its loop equals `OnAck` |
| Congestion.TcpCongestionController.OnLost | include/usn/protocol/tcp_congestion.hpp:45-49 | on_loss equals `OnLoss` |
| Congestion.TcpCongestionController.CanSendNow | include/usn/protocol/tcp_congestion.hpp:20-23 | allowed exactly when in-flight and payload fit both windows |
| Reassembly.TcpReassemblyBuffer.Insert | include/usn/protocol/tcp_reassembly.hpp:26-36 | refuses empty data and known sequence numbers, overwrites nothing, keeps the byte counter exact |
| Reassembly.TcpReassemblyBuffer.PopContiguous | include/usn/protocol/tcp_reassembly.hpp:38-57 | returns `RunFrom`, leaves `RestFrom`, keeps the byte counter exact without saturating |
| Reassembly.RunIsContiguousAndMaximal | include/usn/protocol/tcp_reassembly.hpp:38-57 | the run starts at the expected number, has no gap, and no remaining segment starts where it ends |
| Reassembly.RunPartitions | include/usn/protocol/tcp_reassembly.hpp:38-57 | each segment is in the run with its data or left untouched, never both |
| Reassembly.RunConservesBytes | include/usn/protocol/tcp_reassembly.hpp:50-55 | bytes buffered = bytes popped + bytes left |
| Reassembly.TcpReassemblyBuffer.HoleRanges | include/usn/protocol/tcp_reassembly.hpp:62-79 | the first min(max_ranges, hole_count) holes |
| Reassembly.TcpReassemblyBuffer.HoleCount | include/usn/protocol/tcp_reassembly.hpp:81-94 | the number of holes |
| Reassembly.TcpReassemblyBuffer.TotalHoleBytes | include/usn/protocol/tcp_reassembly.hpp:96-109 | the sum of their lengths, modulo 2^32 |
| HoleAccounting.HolesExactIff | include/usn/protocol/tcp_reassembly.hpp:62-109 | the reported holes are exactly the missing numbers if and only if no segment across 2^32 strands the cursor below a later key |
| HoleAccounting.NoWrapNeverStranded | include/usn/protocol/tcp_reassembly.hpp:68-77 | a buffer in which no segment but the highest reaches 2^32, overlapping or stale or not, never strands the cursor |
| HoleAccounting.StrandedIsWrong | include/usn/protocol/tcp_reassembly.hpp:73-76 | a stranded cursor always reports the covered byte below that key as missing |
| HoleAccounting.HolesAreMissingBytes | include/usn/protocol/tcp_reassembly.hpp:62-109 | a number is in a reported hole exactly when it is expected, below some buffered end, and in no segment |
| HoleAccounting.HoleTotals | include/usn/protocol/tcp_reassembly.hpp:62-109 | the holes are sorted, disjoint and not adjacent, and total_hole_bytes is the number of missing bytes |
| HoleAccounting.WrappedSegmentReportedMissing | include/usn/protocol/tcp_reassembly.hpp:73-76 | a segment across 2^32 below another key makes a covered byte count as missing |
| RingIndex.RoundUpIsLeastPower | include/usn/core/mpsc_queue.hpp:143-155 | the rounded capacity is the least power of two not below the request, exactly for requests up to 2^63 |
| RingIndex.MaskByCapacity | include/usn/core/packet_ring.hpp:61-61 | x & mask is x mod capacity |
| RingIndex.IndexInjective | include/usn/core/mpsc_queue.hpp:88-89 | within a window of one capacity no two positions share a slot |
| MpscInvariant.StepKeeps | include/usn/core/mpsc_queue.hpp:61-120 | every atomic step of any producer or the consumer keeps the invariant |
| MpscInvariant.ClaimKeeps | include/usn/core/mpsc_queue.hpp:67-86 | winning a ticket on a stale head still leaves at most capacity tickets outstanding |
| MpscTheorems.PopFollowsTickets | include/usn/core/mpsc_queue.hpp:95-120 | the k-th successful pop returns the value of the winner of ticket k |
| MpscTheorems.TicketsConserved | include/usn/core/mpsc_queue.hpp:61-120 | tickets won = popped + stored + claimed but unwritten, plus the one being cleared |
| MpscTheorems.CheckTakesIff | include/usn/core/mpsc_queue.hpp:99-114 | a pop goes on to take the value exactly when the loaded tail shows a ticket and its winner has finished its write |
| MpscTheorems.PopCompletes | include/usn/core/mpsc_queue.hpp:95-120 | if the winner of the oldest ticket has written, the six steps of a pop return its value, whatever producers do between them |
| MpscTheorems.PushCompletes | include/usn/core/mpsc_queue.hpp:61-91 | a push that nobody overtakes succeeds whenever there is room |
| MpscTheorems.CasWinsIff | include/usn/core/mpsc_queue.hpp:77-86 | the compare-and-swap wins the next ticket exactly when tail has not moved and it does not fail spuriously |
| MpscTheorems.PerProducerOrder | include/usn/core/mpsc_queue.hpp:61-120 | the popped values are those of the tickets below head, and the ones a producer won are a prefix of what it has pushed, in program order |
| MpscTheorems.NeverOverfull | include/usn/core/mpsc_queue.hpp:65-86 | tail - head <= capacity in every reachable state |
| MpscTheorems.ClaimIsExclusive | include/usn/core/mpsc_queue.hpp:77-91 | a claimed, unwritten ticket owns an empty slot that no other thread writes or reads |
| MpscTheorems.FilledSlotHoldsItsTicket | include/usn/core/mpsc_queue.hpp:103-114 | a filled slot holds the value of the unique ticket in [head, tail) mapped to it |
| MpscTheorems.FreshRefusalMeansFull | include/usn/core/mpsc_queue.hpp:72-74 | refused on up-to-date loads exactly when full |
| MpscTheorems.RefusedIffFullOrStale | include/usn/core/mpsc_queue.hpp:72-74 | refused exactly when the loaded words show a full queue, or a tail below the head by at most 2^64 - capacity |
| MpscTheorems.ShownFullWasFull | include/usn/core/mpsc_queue.hpp:65-74 | the words show a full queue exactly when it is full, and the loaded tail up to date, at the load of head |
| MpscTheorems.StaleTailRefused | include/usn/core/mpsc_queue.hpp:65-74 | a reachable empty queue on which a push is refused |
| MpscTheorems.ConstructedIsReachable | include/usn/core/mpsc_queue.hpp:37-54 | the queue the constructor builds, for any requested capacity up to 2^63, is a start of such runs |
| PacketRing.Ring.TryPush | include/usn/core/packet_ring.hpp:53-65 | appends, or refuses exactly when full |
| PacketRing.Ring.TryPushBatch | include/usn/core/packet_ring.hpp:69-86 | equals pushing the packets one by one |
| PacketRing.Ring.TryPop | include/usn/core/packet_ring.hpp:90-103 | returns and removes the oldest packet, or nothing exactly when empty |
| PacketRing.Ring.TryPopBatch | include/usn/core/packet_ring.hpp:107-125 | equals popping one by one |
| PacketRing.BatchPushIsSingles | include/usn/core/packet_ring.hpp:69-86 | a run of single pushes takes exactly the packets that fit |
| PacketRing.BatchPopIsSingles | include/usn/core/packet_ring.hpp:107-125 | a run of single pops takes exactly the oldest packets |
| PacketRingSteps.StepKeeps | include/usn/core/packet_ring.hpp:53-125 | every step of producer or consumer keeps the invariant |
| PacketRingSteps.PoppedIsPrefix | include/usn/core/packet_ring.hpp:53-125 | after every interleaving popped is a prefix of pushed and the rest fits the capacity |
| PacketRingSteps.RefinesFifo | include/usn/core/packet_ring.hpp:53-125 | each step is a bounded-FIFO step: nothing, one push's packets appended, or one pop's packets removed from the front |
| PacketRingSteps.CountIsFifoCount | include/usn/core/packet_ring.hpp:54-74 | the number of packets moved is the one a bounded FIFO allows when the other position is loaded |
| PacketRingSteps.PushCompletes | include/usn/core/packet_ring.hpp:53-86 | a push, single or batch, publishes exactly the packets that fit |
| PacketRingSteps.PopCompletes | include/usn/core/packet_ring.hpp:90-125 | a pop, single or batch, returns exactly the oldest packets |
| PacketRingSteps.SlotsNeverCoincide | include/usn/core/packet_ring.hpp:80-121 | the slot being written and the slot being read or reset differ |
| MemoryPool.PoolAccounting | include/usn/core/memory_pool.hpp:25-85 | in every run the free chain is finite, repetition-free and disjoint from live blocks, available() is its length and equals blocks minus live, and allocation fails exactly when all are live |
| MemoryPool.AvailableIsChain | include/usn/core/memory_pool.hpp:77-85 | the bounded walk counts exactly the free chain |
| MemoryPool.ChainUnique | include/usn/core/memory_pool.hpp:25-85 | a pool has at most one free chain |
| MemoryPool.AvailableAfterSecondFree | include/usn/core/memory_pool.hpp:56-85 | after a second return of a free block available() counts every block |
| MemoryPool.LiveBlocksDisjoint | include/usn/core/memory_pool.hpp:43-52 | live blocks lie inside the pool and never overlap |
| MemoryPool.ReleaseWellFormedIff | include/usn/core/memory_pool.hpp:56-64 | returning a block keeps the list a finite chain exactly when the block is not already free |
| MemoryPool.InteriorPointer | include/usn/core/memory_pool.hpp:56-64 | any pointer into a block returns that block, any other pointer nothing |
| MemoryPool.AllocateChain | include/usn/core/memory_pool.hpp:43-52 | allocation takes the head of the chain and fails exactly when it is empty |
| MemoryPool.BlockPool.constructor | include/usn/core/memory_pool.hpp:25-36 | links all blocks in order |
| MemoryPool.BlockPool.AllocateBlock | include/usn/core/memory_pool.hpp:43-52 | equals `Allocate` |
| MemoryPool.BlockPool.DeallocateBlock | include/usn/core/memory_pool.hpp:56-64 | equals `Deallocate` for every pointer, of a live block, a free one or a foreign one |
| MemoryPool.BlockPool.AvailableBlocks | include/usn/core/memory_pool.hpp:77-85 | the walking loop equals `Available` |
| Checksum.FoldIsResidue | include/usn/protocol/udp_protocol.hpp:94-97 | folding gives the residue modulo 65535 in 1..65535, and zero only for zero |
| Checksum.ZeroIffMultiple | include/usn/protocol/udp_protocol.hpp:52-100 | the checksum is zero exactly when the sum is a multiple of 65535 |
| Checksum.StoredChecksumCancels | include/usn/protocol/udp_protocol.hpp:137-144 | a checksum stored where zeros were summed makes the sum a multiple of 65535 |
| Checksum.ChangeMovesResidue | include/usn/protocol/udp_protocol.hpp:82-97 | changing one byte always changes the residue |
| Checksum.SumFits | include/usn/protocol/udp_protocol.hpp:59-97 | up to 131000 bytes the 32-bit sum does not wrap |
| Checksum.SumIsWordSum | include/usn/protocol/udp_protocol.hpp:63-92 | what is summed are the words of the twelve pseudo-header bytes, in the order of the source, followed by the datagram |
| Checksum.HalfChanged | include/usn/protocol/udp_protocol.hpp:63-72 | with one 16-bit half of the address pair changed the checksum is the same exactly when the halves are congruent modulo 65535 |
| Checksum.OtherProtocolDiffers | include/usn/protocol/tcp_protocol.hpp:393-394 | the same bytes never have the same checksum under two protocol numbers |
| Checksum.CalculateChecksum | include/usn/protocol/udp_protocol.hpp:52-100 | the summing and folding loops compute `Compute` |
| UdpProtocol.BuildThenParse | include/usn/protocol/udp_protocol.hpp:104-176 | building then parsing returns ports and payload exactly when the payload is at most 65527 bytes |
| UdpProtocol.CutOrExtended | include/usn/protocol/udp_protocol.hpp:152-176 | a datagram cut short is rejected, bytes behind a whole one are ignored |
| UdpProtocol.AcceptedIff | include/usn/protocol/udp_protocol.hpp:158-169 | any bytes are accepted exactly when the length field covers the header and does not exceed what arrived |
| UdpProtocol.VerifiesElsewhereIff | include/usn/protocol/udp_protocol.hpp:179-202 | a verifying datagram verifies for a pair with one half changed exactly when the halves are congruent, and under no other protocol number |
| UdpProtocol.UncheckedField | include/usn/protocol/udp_protocol.hpp:135-144 | without a checksum, or with an address missing, the field is zero |
| UdpProtocol.BuiltVerifies | include/usn/protocol/udp_protocol.hpp:135-202 | a datagram built with checksum and non-zero addresses verifies |
| UdpProtocol.OneByteChangeDetected | include/usn/protocol/udp_protocol.hpp:179-202 | any single-byte change of a verifying datagram is rejected |
| UdpProtocol.Encapsulate | include/usn/protocol/udp_protocol.hpp:104-148 | writes `Build` into the buffer and nothing beyond it |
| TcpProtocol.BuildThenParse | include/usn/protocol/tcp_protocol.hpp:231-335 | building then parsing returns ports, numbers, offset, flags and payload; the window's low byte reads as the checksum's high byte |
| TcpProtocol.AcceptedIff | include/usn/protocol/tcp_protocol.hpp:304-335 | any bytes are accepted exactly when the data offset covers the header and lies within the frame, and options are skipped |
| TcpProtocol.ValidatesElsewhereIff | include/usn/protocol/tcp_protocol.hpp:337-353 | a validating frame validates for a pair with one half changed exactly when the halves are congruent, and has the checksum of no other protocol number |
| TcpProtocol.DataFrameOnTheWire | include/usn/protocol/tcp_protocol.hpp:231-335 | the bytes of create_data parse to exactly the frame the protocol model exchanges |
| TcpProtocol.AckFrameOnTheWire | include/usn/protocol/tcp_protocol.hpp:197-228 | so do the bytes of create_ack |
| TcpProtocol.SealedValidates | include/usn/protocol/tcp_protocol.hpp:337-353 | a frame whose checksum was computed with bytes 16-17 zero validates |
| TcpProtocol.OneByteChangeDetected | include/usn/protocol/tcp_protocol.hpp:337-353 | any single-byte change of a validating frame is rejected |
| TcpProtocol.BuiltValidatesIff | include/usn/protocol/tcp_protocol.hpp:253-265 | a built frame validates exactly when its window's low byte is zero |
| TcpProtocol.CreateDataInto | include/usn/protocol/tcp_protocol.hpp:231-268 | writes `CreateData` into the buffer and nothing beyond it |
| MarketFeed.SubscriberBalance | include/usn/protocol/udp_feedback.hpp:19-32 | for any arrivals: expected_seq - 1 is the highest number seen and equals total - reorder_events + gaps |
| MarketFeed.ReordersAreLate | include/usn/protocol/udp_feedback.hpp:29-31 | reorder_events counts the arrivals not above all earlier ones, and max_reorder_depth is the largest lag among them |
| MarketFeed.DrawsDecide | apps/market_udp/feed_publisher.cpp:117-125 | each message is dropped, held back or sent, and its draws say which |
| MarketFeed.SwapsCounted | apps/market_udp/feed_publisher.cpp:121-124 | reordered_total counts the messages sent ahead of the one held |
| MarketFeed.PublisherBalance | apps/market_udp/feed_publisher.cpp:101-157 | sent + dropped + held = seq - 1, with at most one held |
| MarketFeed.FeedAccounting | apps/market_udp/feed_publisher.cpp:101-157 | over a lossless ordered link gaps - reorder_events counts exactly the dropped or held numbers below the highest received, and reorder_events <= reordered_total |
| MarketFeed.UdpDeliveryFeedback.ObserveSeq | include/usn/protocol/udp_feedback.hpp:19-32 | the counter updates equal `Observe` |
| MarketFeed.FeedPublisher.Publish | apps/market_udp/feed_publisher.cpp:102-157 | one pass of the loop equals `Tick` |
| MarketFeed.FeedPublisher.Flush | apps/market_udp/feed_publisher.cpp:124-156 | sends from the front until one message is left |

## Left out

- Sockets, epoll, io_uring, batched system calls, busy polling, NUMA pinning and mmap buffers: foreign interfaces.
- The I/O status tables, latency percentiles, tracing, command-line parsing, launchers, Python runners and benchmarks.
- ZeroCopyMemoryPool: the same free list as MemoryPool over mapped memory.
- Reconnection of the client, several connections at once, and several frames merged in one read.
- The gateway's statistics other than processed and rejected requests (hole peaks, backpressure, replayed bytes).
- Payload handling inside handle_incoming: the gateway's data path does not use it.
- Partial writes: a frame that was not written whole never arrives; a failed keepalive or retransmission is a lost frame.
- Weak-memory effects on the non-atomic slots of the rings: steps are sequentially consistent.
- Pointer lifetimes in packet entries; a packet is a value.
- Agreement of the checksum with RFC 768 bit for bit: the protocol word and an odd last byte are byte-swapped in the source, and the model keeps that.
- MarketFeed.FeedPublisher.Flush: a failed sendto, after which the process ends and reports nothing more, is not modelled.
- Checksum.SumFits: asks for at most 131000 bytes; beyond that the 32-bit running sum of the source wraps.

# A verified model of the v3 selective-repeat ARQ stack

The firmware carries datagrams of up to 1280 bytes over a radio that loses, repeats and reorders
127-byte packets. A datagram is cut into at most twelve fragments, sent in rounds, acknowledged by
bitmaps, put together again, delivered once and remembered in a window of 64 ids; the host reaches
the firmware over a serial line with KISS framing and a CRC envelope. This project models that stack
and proves what it is for.

How the files build on each other:

- `Words`, `Crc32`, `FramingV3`: machine words, the CRC-32 register, and the four packet types with
  their builders (which write into a packet buffer) and parsers.
- `FragmentV3`, `DatagramPool`, `DuplicateWindow`: fragmentation and reassembly, the pool of eight
  buffers, and the 64-entry window under serial-number arithmetic (section 3.2 of RFC 1982).
- `ArqState` gives the engine as a value and every operation as a function on it. `ArqEngine` is the
  class whose methods update slot arrays, pools, window and scalars in place; each method is proved
  to do to the state what the function of the same name says, and each public one keeps `Valid()`.
- `ArqInvariant` is the invariant of one engine under any packets, any clock readings and any answers
  of its three callbacks; `ArqConservation`, `ArqTiming`, `ArqRounds`, `ArqRetries`, `AtMostOnce`,
  `Redelivery` and `ArqLog` are what follows for whole runs of one engine. `ArqReplies` and
  `ArqProgress` say what every call leads to: replies, the queue they wait in, openings, retries.
- `ArqReceiver`, `ArqSender`, `ArqLink` and `ArqConvergence` put two engines on a channel, and
  `ArqExchange` takes a datagram all the way from its round to its completion there.
- `Kiss`, `SerialIntegrity` and `SerialRx` are the host byte path.

Conventions. A callback is a function of everything the engine has done so far, so it may answer
anything on each call, and may be absent. What the engine does that can be observed goes into a log.
A 16-bit bitmap is the set of its one-bit positions; on the wire it is the number, and the two views
are proved inverse. Time is an unsigned 32-bit number that wraps; each call brings its own reading.
The channel of `ArqLink` may at any time bring any packet carrying the protected bytes of something
the peer handed to its radio, whatever the padding and whatever the radio answered, or any packet
that decodes to nothing: loss, repetition, reordering, delay and detected corruption. End-to-end
statements are about runs in which no id is given twice, that is at most 65536 accepted datagrams a
side. They are stated from A to B; `SwapReachable` carries each of them to the other direction.
A state is reachable when some calls lead to it from a reset with some configuration and callbacks;
runs are sequences of states in which each follows from the one before by one call.

Three results are limits of the code rather than promises kept, each with an input that shows it and the
exact condition. Exactly-once delivery is not unconditional: `Redelivery.OvertakenIsDeliveredTwice` runs
the engine, under any configuration, on packets of ids 64, 0 and 0 and it delivers id 0 twice.
`Redelivery.DeliveredExactlyWhenUnknown` and `Redelivery.RedeliveredExactlyWhenForgotten` say when that
happens: in every reachable state with a free receive slot and a ready egress, a packet that repeats a
single-fragment datagram is delivered again if and only if some delivery since made the window forget
its id. An acknowledgement that lists every fragment with a failure code neither completes a datagram nor
lets it be retried: `ArqProgress.RefusalBlocks` is a run that ends so, and with nothing to acknowledge or
deliver an engine whose deadline is now acts if and only if no slot is in that state
(`ArqProgress.ActsWhenDue`). Two engines of this code never bring each other there
(`ArqExchange.NeverStuck`). And one stray FEND on the serial line loses the next frame
(`Kiss.StrayFendLosesFrame`): a frame is received if and only if the decoder is idle before it
(`Kiss.DecodesExactlyWhenIdle`), so the round trips ask of line noise that it leave the decoder idle.

## Model

| member | source | states |
|---|---|---|
| ArqLink.NoAcknowledgedLoss | firmware/src/arq/ArqEngine.cpp:489-512 | In every run of two engines over the channel, a slot completed by the sender means the peer's egress accepted that datagram, byte for byte |
| ArqLink.DeliveredAsSubmitted | firmware/src/arq/ArqEngine.cpp:514-569 | In every run each byte string handed to the egress is the datagram submitted under that id, however fragments were lost, repeated, reordered or interleaved |
| ArqLink.AcknowledgementsAreHonest | firmware/src/arq/ArqEngine.cpp:652-668 | In every run an acknowledgement is of a datagram that was submitted and lists only fragments of it, one that covers every fragment with status NONE belongs to a delivered datagram, and a credit withdrawal reports fragment 0 missing and zero credits |
| ArqLink.AckedLagsHeld | firmware/src/arq/ArqEngine.cpp:496-509 | Until delivery the sender's acked set is a strict subset of the fragments and lies within what the receiver holds |
| ArqLink.CompletionMeansDelivery | firmware/src/arq/ArqEngine.cpp:504-509 | An acknowledgement sent by the peer can complete a slot only if the peer has delivered the datagram |
| ArqLink.SomethingUnclaimed | firmware/src/arq/ArqEngine.cpp:657-662 | Of an undelivered datagram some fragment is claimed by no acknowledgement other than a withdrawal, and if that fragment is held, all are |
| ArqLink.LinkStep | firmware/src/arq/ArqEngine.cpp:93-164 | One call into either engine keeps everything that ties the two together |
| ArqLink.LinkInvAt | firmware/src/arq/ArqEngine.cpp:93-164 | So does every run, as long as ids are unique |
| ArqLink.SwapReachable | firmware/src/arq/ArqEngine.h:55-63 | The two ends may be exchanged in every statement |
| ArqConvergence.LosslessRoundCompletes | firmware/src/arq/ArqEngine.cpp:360-470 | When A opens a datagram or retransmits it, sends that round to its end, and every frame of the round reaches B in any order, the first to arrive finding a receive slot, the datagram is delivered or waits complete for its egress |
| ArqExchange.LosslessRoundDelivers | firmware/src/arq/ArqEngine.cpp:145-158 | After such a round, and then as many ticks of B with a ready egress as datagrams wait there, the egress has accepted the submitted datagram, byte for byte |
| ArqExchange.AnsweredInFull | firmware/src/arq/ArqEngine.cpp:514-540 | On the link a fragment of a datagram that is remembered, or delivered just now, is answered with every fragment of the datagram submitted under its id and status NONE |
| ArqExchange.FullAckCompletes | firmware/src/arq/ArqEngine.cpp:489-511 | On the link the arrival of a full acknowledgement with status NONE while its slot is OPEN empties the slot, logs the completion and takes the credits |
| ArqExchange.AnswerCompletes | firmware/src/arq/ArqEngine.cpp:93-160 | From delivery, or a repeat of a remembered datagram, into an empty queue, through a tick once the acknowledgement is due, to its arrival: A completes the datagram |
| ArqExchange.NeverStuck | firmware/src/arq/ArqEngine.cpp:504-509 | Between two engines every datagram in flight has a fragment still unacknowledged, before its delivery and after |
| ArqExchange.DueMeansAction | firmware/src/arq/ArqEngine.cpp:201-253 | So on the link, with nothing to acknowledge or deliver, a tick at a deadline that is now gives up, retries or opens a datagram or offers a fragment |
| ArqConvergence.WholeRoundOnLink | firmware/src/arq/ArqEngine.cpp:360-470 | On the link a whole round at A sends the fragments not acknowledged when it began, each once and in order, whatever B does meanwhile |
| ArqConvergence.OneRoundCompletes | firmware/src/arq/ArqEngine.cpp:514-569 | Once every fragment not yet acknowledged has arrived, in any order and with anything in between, the first of them having found a receive slot, the datagram is delivered or waits complete for its egress |
| ArqConvergence.RunHolds | firmware/src/arq/ArqEngine.cpp:603-608 | Once the first fragment of a datagram has found a receive slot, what the receiver holds of it and every fragment that arrives survive any run until delivery |
| ArqConvergence.DataRetains | firmware/src/arq/ArqEngine.cpp:514-569 | A fragment that finds room is held afterwards, or its datagram delivered; nothing held for another id is lost |
| ArqReceiver.DataKeepsLink | firmware/src/arq/ArqEngine.cpp:514-569 | Receiving any genuine fragment keeps genuine slots, honest acknowledgements, honest window entries and the withheld fragment |
| ArqReceiver.OfferedIsGenuine | firmware/src/arq/ArqEngine.cpp:610-622 | What a complete slot offers the egress is the submitted datagram |
| ArqReceiver.NewestUnclaimed | firmware/src/arq/ArqEngine.cpp:652-662 | The fragment that completes a reassembly has been claimed by no acknowledgement |
| ArqSender.TxTickMoves | firmware/src/arq/ArqEngine.cpp:321-358 | A transmit tick puts only fragments of datagrams in slots on the air, moves no datagram between slots, and acknowledges nothing by itself |
| ArqSender.HandleAckMoves | firmware/src/arq/ArqEngine.cpp:489-512 | An acknowledgement moves only the OPEN slot it names: it is emptied exactly when all is then acknowledged without a failure, else a withdrawal keeps only the bits it lists and ends the round, and any other adds its bits; credits are the granted ones, a completion is recorded exactly when the slot is emptied, and the receive side stays as it was |
| ArqProgress.AckPacketMoves | firmware/src/arq/ArqEngine.cpp:113-121 | In every reachable state a received ACK packet has the effect of its acknowledgement and no other; a withdrawal puts the deadline a stall timeout ahead |
| ArqSender.SubmitKeepsTxLink | firmware/src/arq/ArqEngine.cpp:47-91 | An accepted datagram is stored under an id nothing else bears; a refused one changes nothing |
| ArqSender.BookIsSubmissions | firmware/src/arq/ArqEngine.cpp:79-83 | The k-th accepted datagram has the k-th id after the initial one, across 16-bit wrap |
| ArqInvariant.ReachableInv | firmware/src/arq/ArqEngine.cpp:29-45 | Buffer ownership, slot and window well-formedness, distinct ids and the ledgers hold in every reachable state |
| ArqInvariant.InvAt | firmware/src/arq/ArqEngine.cpp:93-164 | Every call of a run keeps them, whatever packet, clock reading or callback answer it meets |
| ArqInvariant.SubmitKeeps | firmware/src/arq/ArqEngine.cpp:47-91 | A submission is accepted exactly when its length is legal and a slot is empty; allocation never fails |
| ArqInvariant.TxPoolNotExhausted | firmware/src/arq/ArqEngine.cpp:72-78 | With an empty slot there is a buffer, so ALLOCATION_FAILED is unreachable |
| ArqInvariant.RxPoolNotExhausted | firmware/src/arq/ArqEngine.cpp:581-601 | With an inactive receive slot there is a buffer |
| ArqInvariant.ReleaseRxKeeps | firmware/src/arq/ArqEngine.cpp:603-608 | Releasing a receive slot keeps slots and allocated buffers in bijection |
| ArqInvariant.HandleDataKeeps | firmware/src/arq/ArqEngine.cpp:514-569 | A fragment never puts one id into two slots, or into a slot and the window, and leaves the transmit side alone |
| ArqReplies.DataIsAnswered | firmware/src/arq/ArqEngine.cpp:514-569 | In every reachable state exactly one answer is queued for a DATA packet: the window record again for a remembered id; ALLOCATION_FAILURE, no fragment and no credit with no slot; all fragments on delivery; what is held with MALFORMED_INPUT for contradicting metadata; all but fragment 0 as a withdrawal when the egress refuses; what is held at ROUND_END; and nothing otherwise. Credits are the most allowed, the ready time is the turnaround ahead |
| ArqReplies.TickAnswers | firmware/src/arq/ArqEngine.cpp:145-158 | Every tick first offers waiting datagrams, lowest slot first, until one is taken, then the head of the queue to the radio, once, when it is due; the rest keep their order, and only if neither got through is anything else sent |
| ArqReplies.WaitingIsDelivered | firmware/src/arq/ArqEngine.cpp:642-650 | With a ready egress a tick delivers the datagram in the lowest waiting slot: accepted delivery logged, that slot alone emptied, the window stores it, and it is acknowledged in full |
| ArqReplies.FlushOffersHead | firmware/src/arq/ArqEngine.cpp:162-164 | A flush offers the head of the queue when it is due, removes it exactly when taken, and does nothing else |
| ArqReplies.NoAckBeforeDeadline | firmware/src/arq/ArqEngine.cpp:201-205 | With acknowledgements pending the deadline is the head's, and no tick before it sends one, unless it delivers the head's own datagram and so renews it |
| ArqReplies.AckAtDeadline | firmware/src/arq/ArqEngine.cpp:295-318 | A tick at that deadline offers the head, which leaves the queue or stays at its head as the radio answers |
| ArqLog.LogIsTrue | firmware/src/arq/ArqEngine.cpp:610-622 | In every reachable state what the log says the radio or the egress answered is what the callback answered, and nothing was offered to an egress that had just reported no room |
| ArqInvariant.HandleAckKeeps | firmware/src/arq/ArqEngine.cpp:489-512 | An acknowledgement with any contents keeps the transmit side in order and leaves the receive side alone |
| ArqInvariant.ScannedOk | firmware/src/arq/ArqEngine.cpp:399-413 | The branch for a round whose remaining fragments all lie behind is unreachable |
| ArqConservation.Conservation | firmware/src/arq/ArqEngine.cpp:463-512 | In every reachable state accepted = completed + given up + in slots; credits plus ordinary openings since the last acknowledgement = its clamped credits; in both pools used buffers = slots in use, free ones the rest of eight |
| ArqConservation.BuffersCounted | firmware/src/arq/DatagramPool.h:69-106 | On the transmit side the use count is the number of slots in use and the free count the rest of eight |
| ArqConservation.RxBuffersCounted | firmware/src/arq/DatagramPool.h:69-106 | On the receive side the use count is the number of active slots and the free count the rest of eight |
| ArqConservation.ReleasesSucceed | firmware/src/arq/ArqEngine.cpp:482-487 | In every reachable state neither pool has ever counted an invalid or double release, those of slots taken and released within one call included, and the next release of any slot will succeed |
| AtMostOnce.DeliveredOnceWhileRemembered | firmware/src/arq/ArqEngine.cpp:514-540 | In every reachable state no delivery was of an id the window remembered at the time |
| AtMostOnce.WindowIsItsHistory | firmware/src/arq/DatagramPool.h:127-222 | In every reachable state the window holds exactly what its rule makes of the deliveries so far |
| AtMostOnce.RedeliveryNeedsForgetting | firmware/src/arq/ArqEngine.cpp:610-640 | Between two deliveries of one id some delivery made the window forget it |
| AtMostOnce.RememberedAfter | firmware/src/arq/DatagramPool.h:178-222 | A delivery keeps an id remembered if and only if it neither moves the newest id more than 63 past it nor evicts it |
| AtMostOnce.ForgottenExactly | firmware/src/arq/DatagramPool.h:178-222 | An id is forgotten now if and only if some delivery from its last one on made the window forget it |
| AtMostOnce.StoreRemembers | firmware/src/arq/DatagramPool.h:178-222 | Storing refines the rule on sets of ids |
| AtMostOnce.FullExactly | firmware/src/arq/DatagramPool.h:197-216 | Every entry is valid if and only if all 64 ids up to the newest are remembered |
| AtMostOnce.OvertakenIsForgotten | firmware/src/arq/DatagramPool.h:186-222 | An id 64 behind the newest is forgotten as it is delivered |
| Redelivery.DeliveredExactlyWhenUnknown | firmware/src/arq/ArqEngine.cpp:514-569 | In every reachable state with a free receive slot and a ready egress, a single-fragment packet is delivered if and only if the window does not remember its id |
| Redelivery.RedeliveredExactlyWhenForgotten | firmware/src/arq/ArqEngine.cpp:514-569 | In every reachable state a packet that repeats a delivered single-fragment datagram is delivered again if and only if some delivery since, its own included, made the window forget the id |
| Redelivery.OvertakenIsDeliveredTwice | firmware/src/arq/ArqEngine.cpp:514-569 | Exactly-once is not unconditional: under any configuration, with callbacks that accept, a run from reset on packets of ids 64, 0 and 0 delivers id 0 twice |
| ArqTiming.SleepLosesNothing | firmware/src/arq/ArqEngine.cpp:201-253 | With no acknowledgement pending, a tick before the reported deadline does nothing at all, across clock wrap |
| ArqTiming.ActsAtDeadline | firmware/src/arq/ArqEngine.cpp:145-160 | A tick at that deadline gives a datagram up, starts a round or opens a datagram |
| ArqProgress.ActsWhenDue | firmware/src/arq/ArqEngine.cpp:228-253 | With nothing to acknowledge or deliver, a tick at a deadline that is now acts if and only if no slot is stuck, that is OPEN, between rounds and fully acknowledged |
| ArqProgress.StuckTick | firmware/src/arq/ArqEngine.cpp:360-372 | A stuck slot makes the deadline now and every tick do nothing at all |
| ArqProgress.RefusalBlocks | firmware/src/arq/ArqEngine.cpp:504-509 | A run from reset, for any configuration that grants a credit, in which a MALFORMED_INPUT acknowledgement that lists the only fragment leaves the slot stuck |
| ArqTiming.NoSilentStall | firmware/src/arq/ArqEngine.cpp:427-470 | After a tick that neither delivers nor sends an acknowledgement, QUEUED or OPEN work has a deadline, zero credits included |
| ArqTiming.OpenWaitsForRetry | firmware/src/arq/ArqEngine.cpp:228-252 | Between rounds, with nothing else to do, the deadline is the OPEN slot's |
| ArqTiming.WithdrawalBacksOff | firmware/src/arq/ArqEngine.cpp:496-503 | A credit withdrawal ends the round of the OPEN slot it names, keeps only the acknowledged bits it lists, restarts the attempts at one and sets the retry deadline a stall timeout ahead |
| ArqTiming.WaitsAfterWithdrawal | firmware/src/arq/ArqEngine.cpp:496-503 | With nothing to acknowledge or deliver, and a fragment the withdrawal leaves out, that is what the engine then waits for |
| ArqTiming.OpeningNeedsCredit | firmware/src/arq/ArqEngine.cpp:427-470 | A tick opens a queued datagram only for a credit, which it spends, or after the armed stall probe ran out with none left; it arms the probe only then, a stall timeout ahead |
| ArqProgress.TickTurnsToQueue | firmware/src/arq/ArqEngine.cpp:427-467 | In every reachable state with nothing in flight, to acknowledge or to deliver, a tick opens the lowest queued slot if there is a credit, which it spends, or the stall probe ran out, and offers its first fragment; else it arms the probe once, or disarms it with nothing queued |
| ArqProgress.TickRetries | firmware/src/arq/ArqEngine.cpp:360-397 | Between rounds, with the deadline reached and fragments unacknowledged, a tick gives the datagram up exactly when no attempt is left and otherwise starts another and offers its least fragment, twice if refused |
| ArqProgress.TickGoesOn | firmware/src/arq/ArqEngine.cpp:399-425 | In a round a tick offers the least fragment left to the radio, which leaves the round exactly when taken, and does nothing else |
| ArqTiming.TimeoutRunsOut | firmware/src/arq/ArqEngine.cpp:372-374 | A deadline a timeout ahead, below 2^31, is reached then and at no time before |
| ArqTiming.CreditsAreTheMostAllowed | firmware/src/arq/ArqEngine.cpp:255-272 | The credits offered are the greatest number that slots, buffers, egress and the limit of four all allow |
| ArqTiming.EnqueueAckExactly | firmware/src/arq/ArqEngine.cpp:274-293 | An acknowledgement replaces the pending one for its id, else joins the end, else is dropped at sixteen; others keep their places |
| ArqRounds.WholeRoundInOrder | firmware/src/arq/ArqEngine.cpp:376-425 | From before the call that opens a slot or starts it on another attempt, while it stays in that round and no withdrawal names it, the radio takes the fragments not acknowledged when the round began, each once, ascending, up to those still left, with ROUND_END on the very last alone |
| ArqRounds.RoundBegins | firmware/src/arq/ArqEngine.cpp:376-470 | In every reachable state the call that begins a round sends nothing of it, or exactly its least fragment, with ROUND_END exactly when that is the only one |
| ArqRounds.RoundInOrder | firmware/src/arq/ArqEngine.cpp:399-425 | The same from any state within a round: what is left of it goes out each once, ascending, with ROUND_END on the last alone |
| ArqRounds.EveryFragmentBuilds | firmware/src/arq/ArqEngine.cpp:321-358 | In every reachable state the packet for any fragment of a held datagram is described and built, carries the number of queued datagrams as its hint, and parses back to itself |
| ArqRounds.TickSendsNext | firmware/src/arq/ArqEngine.cpp:399-425 | With a ready radio and nothing to acknowledge or deliver every tick in a round sends the next fragment |
| ArqRounds.ScanFindsLeast | firmware/src/arq/ArqEngine.cpp:405-408 | The scan stops at the least fragment of the round |
| ArqRounds.TickMeasure | firmware/src/arq/ArqEngine.cpp:376-470 | Attempts left, then fragments left, fall lexicographically with every fragment a tick sends, the one sent on opening included, and never rise in a tick |
| ArqRounds.RoundEndBacksOff | firmware/src/arq/ArqEngine.cpp:376-425 | Sending the last fragment of a round, the only one of a one-fragment round included, sets the deadline a retry timeout ahead |
| ArqRounds.WaitsAfterRound | firmware/src/arq/ArqEngine.cpp:228-252 | With nothing to acknowledge or deliver, that is what the engine then waits for |
| ArqRetries.RetriesAreBounded | firmware/src/arq/ArqEngine.cpp:376-381 | In every reachable state no fragment was sent more often than max attempts (at least one) times one more than the credit withdrawals received for its datagram |
| ArqRetries.WithdrawalKeepsRetry | firmware/src/arq/ArqEngine.cpp:496-503 | A withdrawal adds a fresh budget of sends for the datagram it names and none for any other, and the budgets still bound every send |
| ArqEngine.Arq.constructor | firmware/src/arq/ArqEngine.cpp:23-45 | A fresh engine is in the reset state and valid |
| ArqEngine.Arq.OnTxDatagram | firmware/src/arq/ArqEngine.cpp:47-91 | In place, exactly the submit function, keeping the invariant |
| ArqEngine.Arq.OnPacket | firmware/src/arq/ArqEngine.cpp:93-143 | In place, exactly the receive function, keeping the invariant |
| ArqEngine.Arq.Tick | firmware/src/arq/ArqEngine.cpp:145-160 | In place, exactly the tick function, keeping the invariant |
| ArqEngine.Arq.Flush | firmware/src/arq/ArqEngine.cpp:162-164 | In place, exactly the flush function, keeping the invariant |
| ArqEngine.Arq.Deadline | firmware/src/arq/ArqEngine.cpp:201-253 | The loops compute the deadline function and change nothing |
| ArqEngine.Arq.Credits | firmware/src/arq/ArqEngine.cpp:255-272 | The loops compute the credits |
| ArqEngine.Arq.EnqueuePending | firmware/src/arq/ArqEngine.cpp:274-293 | The array search and append compute the queue update |
| ArqEngine.Arq.SendPending | firmware/src/arq/ArqEngine.cpp:295-319 | A due head acknowledgement is sent and the array shifted down |
| ArqEngine.Arq.SendRetransmit | firmware/src/arq/ArqEngine.cpp:360-397 | The loop over slots computes the retransmit function |
| ArqEngine.Arq.SendOpenData | firmware/src/arq/ArqEngine.cpp:399-425 | The loop over slots computes the open-data function |
| ArqEngine.Arq.OpenQueued | firmware/src/arq/ArqEngine.cpp:427-470 | Opening, arming and firing the stall probe as the function says |
| ArqEngine.Arq.ReceiveAck | firmware/src/arq/ArqEngine.cpp:489-512 | In place, the acknowledgement function |
| ArqEngine.Arq.ReceiveData | firmware/src/arq/ArqEngine.cpp:514-569 | In place, the data function |
| ArqEngine.Arq.TryComplete | firmware/src/arq/ArqEngine.cpp:610-640 | In place, the delivery attempt |
| ArqEngine.Arq.CompleteWaiting | firmware/src/arq/ArqEngine.cpp:642-650 | The loop over waiting slots stops at the first delivery |
| ArqEngine.Arq.QueueRx | firmware/src/arq/ArqEngine.cpp:652-668 | Progress and withdrawal acknowledgements as the function says |
| DuplicateWindow.StoreRefinesMap | firmware/src/arq/DatagramPool.h:178-222 | For every id a look-up after a store finds the old map plus the id, cut to the 64 ids up to the newest; an id behind the window is not kept and costs a full window its last entry |
| DuplicateWindow.RoomInsideWindow | firmware/src/arq/DatagramPool.h:205-216 | By pigeonhole the eviction branch is unreachable for an id not behind the window |
| DuplicateWindow.OldestIsLast | firmware/src/arq/DatagramPool.h:205-216 | What a full window evicts is the entry 63 behind the newest |
| DuplicateWindow.PruneRestricts | firmware/src/arq/DatagramPool.h:160-176 | Pruning keeps an entry exactly when its id is within the window |
| DuplicateWindow.WindowObject.StoreInPlace | firmware/src/arq/DatagramPool.h:178-222 | The loops over the entry array compute the store function |
| DatagramPool.AcquireThenRelease | firmware/src/arq/DatagramPool.h:69-106 | Acquiring fails exactly when nothing is free, and a release at once undoes it |
| DatagramPool.ReleaseExactly | firmware/src/arq/DatagramPool.h:89-106 | A release succeeds exactly for an allocated handle; every other one is counted as invalid and changes nothing else |
| DatagramPool.PoolObject.AcquireBuffer | firmware/src/arq/DatagramPool.h:69-87 | The loop takes the lowest free index |
| FragmentV3.ReassemblyIsOrderBlind | firmware/src/framing/FragmentV3.h:138-195 | Genuine fragments in any order with any repeats leave the set of their indexes, the sum of their lengths, and the datagram exactly when every index was seen |
| FragmentV3.CompleteExactlyWhenAllReceived | firmware/src/framing/FragmentV3.h:119-125 | Complete if and only if all bits are set: the byte count never disagrees |
| FragmentV3.AcceptAssembles | firmware/src/framing/FragmentV3.h:138-195 | A genuine fragment adds its bit and bytes and disturbs no other; a repeat is DUPLICATE |
| FragmentV3.AcceptKeepsConsistent | firmware/src/framing/FragmentV3.h:138-195 | Any header and payload keep the state consistent, only OK moves it, and the results are told apart exactly |
| FragmentV3.Describe | firmware/src/framing/FragmentV3.h:49-97 | The loop with its running offset describes exactly the slices of the datagram, each with a valid header, and refuses a describable datagram exactly when it has more pieces than the capacity |
| FragmentV3.Reassembler.Accept | firmware/src/framing/FragmentV3.h:138-195 | In place, exactly the accept function on state and buffer |
| FramingV3.DecodeExactly | firmware/src/framing/FramingV3.h:380-550 | A packet decodes to a frame if and only if it starts with the bytes that frame seals and is long enough: padding never matters, nothing else is accepted |
| FramingV3.CodecRoundTrip | firmware/src/framing/FramingV3.h:348-550 | Parse after build is the identity for all four packet types |
| FramingV3.WireLayout | firmware/src/framing/FramingV3.h:292-515 | Every packet has version 3 and its type in the first octet, numbers low octet first at the stated places, its CRC over a zeroed field, and zeros behind |
| FramingV3.PayloadBurstIsBadCrc | firmware/src/framing/FramingV3.h:380-424 | Changing up to four consecutive payload bytes of an accepted DATA packet is BAD_CRC |
| FramingV3.HeaderBurstIsBadCrc | firmware/src/framing/FramingV3.h:380-424 | So is changing hint, flags and datagram id |
| FramingV3.DataBurstChangesLength | firmware/src/framing/FramingV3.h:380-424 | A change of up to four consecutive bytes anywhere under the CRC of an accepted DATA packet is accepted, if at all, only with another payload length |
| FramingV3.AckBurstRejected | firmware/src/framing/FramingV3.h:442-462 | Changing up to four consecutive bytes of an accepted ACK before its CRC has it rejected |
| FramingV3.ComputeCrcWithZeroedField | firmware/src/framing/FramingV3.h:292-304 | The CRC does not depend on its own field |
| FramingV3.PacketBuffer.BuildData | firmware/src/framing/FramingV3.h:348-378 | Writes exactly the encoded packet, or refuses for exactly two reasons |
| FramingV3.PacketBuffer.BuildAck | firmware/src/framing/FramingV3.h:426-440 | Writes exactly the encoded packet |
| FramingV3.PacketBuffer.BuildControl | firmware/src/framing/FramingV3.h:464-475 | Writes exactly the encoded packet |
| FramingV3.PacketBuffer.BuildMgmt | firmware/src/framing/FramingV3.h:496-515 | Writes exactly the encoded packet, or refuses an overlong payload |
| Crc32.BurstDetected | firmware/src/framing/Crc32.h:10-23 | For messages of any length, a change confined to four consecutive bytes changes the CRC |
| Crc32.ResidueOfSealed | firmware/src/framing/Crc32.h:10-23 | For messages of any length: followed by its own checksum, low octet first, every message has the residue 0x2144DF1C of IEEE 802.3 |
| Crc32.CheckValue | firmware/src/framing/Crc32.h:10-23 | The octets "123456789" have the check value 0xCBF43926, which fixes the initial register |
| Crc32.Update4Injective | firmware/src/framing/Crc32.h:12-21 | Four update steps are injective in the four bytes |
| Crc32.FoldInjective | firmware/src/framing/FramingV3.h:285-290 | Any further bytes keep different registers different |
| Crc32.ComputeCrc32 | firmware/src/framing/Crc32.h:10-23 | The nested loops compute the checksum function |
| Words.BitmapRoundTrip | firmware/src/framing/FramingV3.h:171-179 | Bit sets and 16-bit words are inverse views |
| Kiss.DecodesExactlyWhenIdle | firmware/src/kiss/Kiss.cpp:62-128 | From any decoder an encoded frame decodes to itself, or to one oversize drop when its payload does not fit, if and only if the decoder is idle before it |
| Kiss.DecodesWhatWasEncoded | firmware/src/kiss/Kiss.cpp:62-128 | After any noise the frame follows what the noise itself yields, and the decoder is ready again, if and only if the noise leaves the decoder idle |
| Kiss.HarmlessExactlyWhenEven | firmware/src/kiss/Kiss.cpp:62-128 | Noise without FESC leaves the decoder idle if and only if it holds an even number of FEND bytes |
| Kiss.BusyLosesFrame | firmware/src/kiss/Kiss.cpp:64-97 | A decoder that is not idle takes the opening FEND for the end of another frame, reports nothing of this one, and is left inside the next |
| Kiss.StrayFendLosesFrame | firmware/src/kiss/Kiss.cpp:64-97 | A closing FEND never opens a frame: one stray FEND loses the next frame and leaves the decoder inside another |
| Kiss.KnownFrame | firmware/src/kiss/Kiss.cpp:4-36 | The bytes of a frame that holds both special bytes |
| Kiss.KissDecoder.DecodeFrameEx | firmware/src/kiss/Kiss.cpp:62-128 | In place, exactly one step of the decoder |
| Kiss.KissDecoder.FeedHost | pi-daemon-rust/src/kiss.rs:33-107 | The host decoder reports exactly the data frames of the same machine |
| Kiss.EncodeFrameInto | firmware/src/kiss/Kiss.cpp:4-36 | Writes the whole frame, or nothing and 0 when the buffer is too small |
| Kiss.KissEncode | pi-daemon-rust/src/kiss.rs:109-125 | The host encoder builds the same frame |
| SerialIntegrity.UnwrapExactly | pi-daemon-rust/src/serial_integrity.rs:19-45 | A frame is accepted with payload p if and only if it is p wrapped and the length of p fits 16 bits |
| SerialIntegrity.BurstDropped | firmware/src/main.cpp:879-889 | Changing up to four consecutive payload bytes of a wrapped frame has it dropped |
| SerialIntegrity.HeaderRoundTrip | firmware/src/kiss/SerialIntegrity.h:20-42 | The big-endian header parses back to its fields whatever follows |
| SerialIntegrity.HeaderLayout | firmware/src/kiss/SerialIntegrity.h:20-42 | The envelope starts with 0x8AC1, then length and CRC, each high octet first |
| SerialIntegrity.BuildInto | firmware/src/kiss/SerialIntegrity.h:33-42 | Writes exactly the header bytes |
| SerialIntegrity.WrapPayload | pi-daemon-rust/src/serial_integrity.rs:6-17 | Builds the envelope, keeping the low 16 bits of the length |
| SerialRx.PipelineLossless | firmware/src/main.cpp:856-907 | For any list of datagrams with noise between that leaves the decoder idle, the firmware accepts exactly those of up to 1280 bytes, unchanged and in order, besides the frames the noise itself holds |
| SerialRx.FendFreeIsHarmless | firmware/src/main.cpp:856-907 | Noise without FEND is such noise and holds no frame |
| SerialRx.OtherCommandsYieldNothing | firmware/src/main.cpp:856-907 | A KISS frame with any other command yields no datagram and leaves the decoder at its start |
| SerialRx.TaskKeepsOrder | firmware/src/main.cpp:803-908 | However the loop divided the stream and whatever the queue answered, frames forwarded plus ring contents are the legal datagrams in order, between the frames the noise holds |
| SerialRx.TaskLossless | firmware/src/main.cpp:803-908 | So with legal datagrams and noise that neither holds a frame nor leaves the decoder inside one, they are the datagrams in order |
| SerialRx.HostTakesWhatFirmwareSends | pi-daemon-rust/src/kiss.rs:33-107 | After noise that leaves its decoder idle the host recovers what the firmware wraps and encodes, as the one report after those of the noise |
| SerialRx.SerialRxTask.Drain | firmware/src/main.cpp:807-820 | Moving frames to the queue loses and reorders none |
| SerialRx.SerialRxTask.ReadByte | firmware/src/main.cpp:856-907 | One byte keeps forwarded plus ring equal to what the bytes read yield |
| SerialRx.SerialRxTask.ReadAvailable | firmware/src/main.cpp:845-908 | Reads a prefix of what is available and stops early only at a full ring or a failed read |
| SerialRx.SerialRxTask.Iterate | firmware/src/main.cpp:803-908 | One pass of the loop keeps the invariant and loses no frame |

## Left out

- The radio, interrupts, FreeRTOS tasks and queues appear only as callbacks, clock readings and queue answers that may be anything.
- Two datagrams under one id: end-to-end statements stop at 65536 submissions a side, after which the code reuses ids.
- Packets that decode to a frame nobody sent: the channel does not forge. What the CRC guarantees against corruption is stated separately, for changes of up to four consecutive bytes; one that changes a DATA packet's payload length changes which bytes its CRC covers, and nothing is claimed of it.
- Fairness, in-order delivery and that a round ever gets through: the code promises none; opening is by slot index.
- Termination of a receive slot whose sender gave up: the code keeps such a slot, so work on the receive side alone need not have a deadline.
- The engine's diagnostic counters, and the pools' count of failed allocations, which nothing above depends on; no allocation ever fails (`TxPoolNotExhausted`, `RxPoolNotExhausted`).
- Null pointers are an absent payload, an absent datagram, or an output buffer too short; a raw buffer pointer is the handle of a pool buffer.
- Redelivery.RedeliveredExactlyWhenForgotten: is about datagrams of one fragment; a larger one is delivered again only once all its fragments have been received again.
- ArqEngine.Arq.AcceptIn: uses the accept function on the pool buffer as a value; the in-place version is FragmentV3.Reassembler.Accept.
- The cleared receive slots of a reset: the model gives them the values of a fresh slot where the code has zero bytes; both are inactive and never read.
- Contents of CONTROL and MGMT packets beyond the codec: the engine parses and ignores them.
- Delays and watchdog calls of the serial task, control commands, and its native mode, where no envelope bounds the length.
- The v2 packet format and MAC path, displays, statistics, configuration, Python tools and TUN bridges.

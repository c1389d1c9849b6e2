# Transmission channels and the discrete-event engine of straightway/sim

This project models the core of the `straightway/sim` network simulator and
proves properties of the model:

- **The transmission timeline.** A channel keeps a list of reservations
  (`TransmissionRecord`: start time and signed duration). The scheduler
  places a request into that list. It claims the gap before the first
  record when the request fits strictly inside it. Otherwise it absorbs the
  record and goes on with the rest. `splitAt` cuts a timeline at an instant.
  `mergeWith` joins two timelines and coalesces them where they touch
  (modules `TransmissionRecords` and `TransmissionScheduling`).
- **Backward placement.** A foreign offer has to end at a given finish time.
  Time is reversed (`reverse`), the same scheduler runs with a negated
  duration, and the result is reversed back (module `TimeReversal`).
- **The channel** `AsyncSequentialTransmissionStream` in its current
  revision (`Channel`, with the online flag) and its earlier one
  (`LegacyChannel`). `requestTransmission` purges the expired reservations
  and returns an uncommitted offer. `accept` adopts an own offer's candidate
  timeline or reconciles a foreign offer. The test stand-in with a fixed
  receive time is `FixedChannel` (module `TransmissionStreams`).
- **The negotiation** `scheduleTransmission` / `transmit`. The sender is
  asked for an offer, then the receiver. The offer that finishes later wins,
  and the sender's offer wins a tie. Both ends commit it, the sender first,
  and the finish time is returned. A request's receiver is set late with
  `to` (module `Negotiation`). Concrete runs of the test scenarios are in
  module `ChannelScenarios`.
- **The discrete-event engine** `Simulator` and its `Event`s. Events are
  ordered by time, then by sequence number. `schedule`, `run`, `pause`,
  `reset`, `popNextEvent` and `execute` are modelled, as is the 32-bit
  sequence counter that starts at the smallest `Int` (modules `Events` and
  `Simulation`).

### Modelling choices

- **Time and bandwidth.** Time is an integer number of nanoseconds, instant
  0 being the simulator's start instant. A channel's bandwidth is kept as
  its reciprocal, `timePerUnit` (nanoseconds per unit of data). A message of
  `size` units then takes exactly `size * timePerUnit`.
- **The earlier revision.** It repeats the algorithm in one file. Its nested
  scheduler (`src/main/kotlin/straightway/sim/net/AsyncSequentialTransmissionStream.kt:81-115`),
  `splitAt` (124-136), `mergeWith` (138-143) and `reverse` (145-149) are the
  same case analyses as the current revision. They are modelled once, by
  `Transmissions`, `SplitAt`, `MergeWith` and `Reversed`.
- **Behaviours of the code worth knowing:**
  - On equal finish times the *sender's* offer is committed, not the
    receiver's (`net/src/main/kotlin/straightway/sim/net/TransmitRequest.kt:45`,
    `src/main/kotlin/straightway/sim/net/TransmitRequest.kt:17`).
  - Purging drops only the *leading* records that ended before now. It stops
    at the first record that has not ended, and a record ending exactly now
    is kept (`dropWhile`, `net/src/main/kotlin/straightway/sim/net/AsyncSequentialTransmissionStream.kt:51-55`).
  - Events of the same instant run in the order they were scheduled only
    until the 32-bit sequence counter wraps
    (`src/main/kotlin/straightway/sim/core/Simulator.kt:41`). After the wrap,
    a later event gets a smaller number and runs first.
- **Failures.** The `Panic` of an offline stream, the cast of a memento that
  holds no timeline, and reading a receiver that was never set become
  `Failure` values of a `Result`. They are `StreamOffline`,
  `MementoNotACandidate` and `ReceiverNotSet`.
- **Event actions.** An action is data. It lists the events it schedules
  (delay, description, action) and says whether it pauses the run. The
  engine's state is the value `Sim`, and its transitions are functions. The
  class `Simulator` updates its fields in place, and each of its methods is
  proved to take its state to the value the transition function gives.

## Model

| member | source | states |
|---|---|---|
| TransmissionRecords.MatchesIsReflexiveAndSymmetric | net/src/main/kotlin/straightway/sim/net/TransmissionRecord.kt:34-46 | the 10 ns tolerant record equality is reflexive and symmetric |
| TransmissionRecords.MatchesIsNotTransitive | net/src/main/kotlin/straightway/sim/net/TransmissionRecord.kt:34-46 | the tolerant equality is not transitive: (0,5)~(9,5)~(18,5) but not (0,5)~(18,5) |
| TransmissionRecords.SplitAt | net/src/main/kotlin/straightway/sim/net/TransmissionRecord.kt:50-52 | cutting keeps the total reserved time, and the halves hold the records plus at most one extra piece |
| TransmissionRecords.SplitFirstRecordAt | net/src/main/kotlin/straightway/sim/net/TransmissionRecord.kt:77-80 | a cut inside the first record gives a first piece from its start to the cut and a second from the cut to its end, followed by the remaining records |
| TransmissionRecords.MergeWith | net/src/main/kotlin/straightway/sim/net/TransmissionRecord.kt:54-61 | joining keeps the total; when the last record of the first part ends where the tail starts, the two become one record (one record fewer), otherwise the result is the plain concatenation |
| TransmissionRecords.MergeSplitRoundTrip | net/src/main/kotlin/straightway/sim/net/TransmissionRecord.kt:50-80 | merging the two halves of any cut gives back the original timeline; the same round trip holds for the earlier revision's cut and merge (src/main/kotlin/straightway/sim/net/AsyncSequentialTransmissionStream.kt:124-143) |
| TransmissionRecords.SplitBeforeEmpty | net/src/main/kotlin/straightway/sim/net/TransmissionRecord.kt:65 | the first half is empty only for an empty timeline or a cut before the first start, which leaves the whole timeline in the second half |
| TransmissionRecords.SplitSeparates | net/src/main/kotlin/straightway/sim/net/TransmissionRecord.kt:63-80 | on an ordered timeline both halves are ordered, every first-half record ends by the cut, every second-half record starts at or after it, and together they reserve exactly the instants the timeline reserves |
| TransmissionRecords.SplitFirstHalfFromTimeline | net/src/main/kotlin/straightway/sim/net/TransmissionRecord.kt:71-80 | every record of the first half starts where a record of the timeline starts |
| TransmissionRecords.MergeOrdered | net/src/main/kotlin/straightway/sim/net/TransmissionRecord.kt:54-61 | merging ordered timelines that do not overlap gives an ordered timeline that reserves exactly the union of their instants |
| TransmissionRecords.MergeCoalescedOrdered | net/src/main/kotlin/straightway/sim/net/TransmissionRecord.kt:57-59 | the coalescing case keeps order and reserves the union |
| TransmissionScheduling.Transmissions | net/src/main/kotlin/straightway/sim/net/TransmissionScheduler.kt:34-64 | the schedule is never empty, is at most one record longer than the timeline, and its head starts at the start time; the earlier revision (src/main/kotlin/straightway/sim/net/AsyncSequentialTransmissionStream.kt:81-115) is the same recursion |
| TransmissionScheduling.ScheduleShape | net/src/main/kotlin/straightway/sim/net/TransmissionScheduler.kt:36-38 | the records after the absorbed prefix are returned unchanged, and the head's duration is the request plus the absorbed records and gaps |
| TransmissionScheduling.ScheduleTotal | net/src/main/kotlin/straightway/sim/net/TransmissionScheduler.kt:43-56 | the total reserved time grows by exactly the requested duration |
| TransmissionScheduling.ExactFillCoalesces | net/src/main/kotlin/straightway/sim/net/TransmissionScheduler.kt:40-41 | a request that exactly fills the gap before a record is not placed first: it absorbs that record into one block |
| TransmissionScheduling.ScheduleForward | net/src/main/kotlin/straightway/sim/net/TransmissionScheduler.kt:34-64 | a forward request on an ordered timeline that starts no earlier than the start time gives an ordered schedule. Its head ends no earlier than start plus duration and reserves exactly the old instants plus the head's span |
| TransmissionScheduling.ScheduleLeavesRoom | net/src/main/kotlin/straightway/sim/net/TransmissionScheduler.kt:34-64 | for a non-negative duration on records of non-negative length, the schedule's head ends no earlier than the start time plus the duration, whatever the gap before the first record |
| TransmissionScheduling.ScheduleNegated | net/src/main/kotlin/straightway/sim/net/TransmissionScheduler.kt:34-64 | scheduling the negated timeline from the negated start with the negated duration is the negation of the forward schedule |
| TransmissionScheduling.InProgressRecordOverlaps | net/src/main/kotlin/straightway/sim/net/TransmissionScheduler.kt:36-41 | as written, placing from an instant inside a reservation puts a short request in front of that reservation (overlapping it) and over-reserves a long one |
| TransmissionScheduling.RecordEndingNowAbsorbed | net/src/main/kotlin/straightway/sim/net/TransmissionScheduler.kt:36-56 | a request from 5 that does not fit in the (negative) gap before a reservation ending at 5 absorbs it: on [(0, 5)] with duration 7 the schedule is [(5, 12)] |
| TransmissionScheduling.ScheduleFrom | net/src/main/kotlin/straightway/sim/net/AsyncSequentialTransmissionStream.kt:86-90 | the corrected placement, from now on the part of the timeline from now on, is never empty and its head starts now |
| TransmissionScheduling.ScheduleFromOrdered | net/src/main/kotlin/straightway/sim/net/AsyncSequentialTransmissionStream.kt:77-90 | on an ordered timeline the placement from now is ordered, ends no earlier than now plus the duration, and reserves exactly the reservations from now on plus the span from now to its head's end |
| TransmissionScheduling.CorrectedPlacementExamples | net/src/main/kotlin/straightway/sim/net/AsyncSequentialTransmissionStream.kt:86-90 | placing from 5 behind the part of the timeline before 5: on [(0, 10)] a 3 long request gives [(5, 8)]; on [(0, 5)] a 7 long one gives [(5, 7)] |
| TransmissionScheduling.ScheduleFromAgrees | net/src/main/kotlin/straightway/sim/net/AsyncSequentialTransmissionStream.kt:86-90 | when no reservation of the ordered timeline began before now (the first starts after now, or at now with a positive length), the corrected placement is exactly the scheduler run on the whole timeline, as the program does it |
| TimeReversal.ReversedRecord | net/src/main/kotlin/straightway/sim/net/AsyncSequentialTransmissionStream.kt:104-106 | a reversed record starts where the record ended and ends where it started |
| TimeReversal.ReversedAt | net/src/main/kotlin/straightway/sim/net/AsyncSequentialTransmissionStream.kt:100-102 | the reversed list holds the reversed records in the opposite order |
| TimeReversal.ReversedTwice | net/src/main/kotlin/straightway/sim/net/AsyncSequentialTransmissionStream.kt:100-106 | reversing twice is the identity; the earlier revision (src/main/kotlin/straightway/sim/net/AsyncSequentialTransmissionStream.kt:145-149) is the same involution |
| TimeReversal.ReversedTotal | net/src/main/kotlin/straightway/sim/net/AsyncSequentialTransmissionStream.kt:100-106 | reversal negates the total reserved time |
| TimeReversal.MirrorOrdered | net/src/main/kotlin/straightway/sim/net/AsyncSequentialTransmissionStream.kt:100-106 | reflecting an ordered timeline in time keeps it ordered |
| TimeReversal.MirrorBusy | net/src/main/kotlin/straightway/sim/net/AsyncSequentialTransmissionStream.kt:100-106 | the reflected timeline reserves exactly the reflected instants |
| TimeReversal.ForeignPlacementMirrors | net/src/main/kotlin/straightway/sim/net/AsyncSequentialTransmissionStream.kt:67-75 | the backward placement (reverse, schedule with negated duration, reverse back) is forward placement in the mirror image |
| TimeReversal.ForeignPlacementOrdered | net/src/main/kotlin/straightway/sim/net/AsyncSequentialTransmissionStream.kt:67-75 | the backward placement before the finish time is ordered, ends exactly at the finish time, and starts at least the duration before it |
| TimeReversal.ForeignPlacementBusy | net/src/main/kotlin/straightway/sim/net/AsyncSequentialTransmissionStream.kt:67-75 | the backward placement reserves exactly the earlier reservations plus the span from its start to the finish time |
| TimeReversal.ForeignPlacementTotal | net/src/main/kotlin/straightway/sim/net/AsyncSequentialTransmissionStream.kt:67-75 | the backward placement adds exactly the duration to the total |
| TimeReversal.ForeignReservation | net/src/main/kotlin/straightway/sim/net/AsyncSequentialTransmissionStream.kt:61-75 | accepting a foreign offer on an ordered timeline keeps it ordered and adds exactly the duration. It reserves the old instants plus a span that ends at the finish time and is at least the duration long; the earlier revision (src/main/kotlin/straightway/sim/net/AsyncSequentialTransmissionStream.kt:61-67) has the same guarantees |
| TransmissionStreams.DropExpired | net/src/main/kotlin/straightway/sim/net/AsyncSequentialTransmissionStream.kt:51-55 | purging removes only a leading run of records that ended before now; a remaining first record ends at or after now |
| TransmissionStreams.DropExpiredIdempotent | net/src/main/kotlin/straightway/sim/net/AsyncSequentialTransmissionStream.kt:51-55 | purging twice at the same instant removes nothing more |
| TransmissionStreams.DropExpiredKeepsFuture | net/src/main/kotlin/straightway/sim/net/AsyncSequentialTransmissionStream.kt:51-55 | purging an ordered timeline keeps it ordered and keeps every reservation from now on |
| TransmissionStreams.CreateOffer | net/src/main/kotlin/straightway/sim/net/AsyncSequentialTransmissionStream.kt:77-90 | the program's offer: the scheduler is run from now on the whole (purged) timeline; the offer is issued by the channel for the message's size, carries that schedule as its candidate, which starts now, and finishes when the candidate's head ends |
| TransmissionStreams.OfferLeavesRoom | net/src/main/kotlin/straightway/sim/net/AsyncSequentialTransmissionStream.kt:77-92 | on every ordered timeline the offer finishes no earlier than now plus the message's duration |
| TransmissionStreams.OfferReservesFromNow | net/src/main/kotlin/straightway/sim/net/AsyncSequentialTransmissionStream.kt:77-92 | on an ordered timeline none of whose reservations began before now, the offer finishes no earlier than now plus the message's duration, and its candidate is ordered and reserves the future reservations plus now up to the finish |
| TransmissionStreams.CorrectedOffer | net/src/main/kotlin/straightway/sim/net/AsyncSequentialTransmissionStream.kt:77-90 | the offer with the corrected placement from now: issued by the channel for the message's size, with a candidate that starts now, finishing when the candidate's head ends |
| TransmissionStreams.CorrectedOfferReservesFromNow | net/src/main/kotlin/straightway/sim/net/AsyncSequentialTransmissionStream.kt:77-92 | on every ordered timeline the corrected offer finishes no earlier than now plus the duration, and its candidate is ordered and reserves the future reservations plus now up to the finish; it is the program's offer whenever no reservation began before now |
| TransmissionStreams.Accepted | net/src/main/kotlin/straightway/sim/net/AsyncSequentialTransmissionStream.kt:44-65 | an own offer (same issuer) is adopted verbatim; an own offer without a candidate fails; a foreign offer is reconciled with this channel's duration for the message |
| TransmissionStreams.AcceptedOrdered | net/src/main/kotlin/straightway/sim/net/AsyncSequentialTransmissionStream.kt:44-65 | committing a foreign offer, or an own offer made from an ordered timeline, succeeds and keeps the timeline ordered |
| TransmissionStreams.Channel.constructor | net/src/main/kotlin/straightway/sim/net/AsyncSequentialTransmissionStream.kt:31-36 | a new channel is online and has nothing reserved |
| TransmissionStreams.Channel.RequestTransmission | net/src/main/kotlin/straightway/sim/net/AsyncSequentialTransmissionStream.kt:38-42 | offline: fails and changes nothing; online: the timeline is purged and nothing else, the offer is the program's offer (CreateOffer) on the purged timeline, and an ordered timeline stays ordered |
| TransmissionStreams.Channel.Accept | net/src/main/kotlin/straightway/sim/net/AsyncSequentialTransmissionStream.kt:44-47 | offline: fails and changes nothing; online: the timeline becomes the accepted one, or stays and the fault is returned; a foreign offer keeps an ordered timeline ordered |
| TransmissionStreams.LegacyChannel.constructor | src/main/kotlin/straightway/sim/net/AsyncSequentialTransmissionStream.kt:151 | a new channel has nothing reserved |
| TransmissionStreams.LegacyChannel.RequestTransmission | src/main/kotlin/straightway/sim/net/AsyncSequentialTransmissionStream.kt:43-46 | the timeline is purged and the offer is the program's offer (CreateOffer) on the purged timeline; the earlier revision runs the same scheduler on the whole timeline (lines 69-79) |
| TransmissionStreams.LegacyChannel.Accept | src/main/kotlin/straightway/sim/net/AsyncSequentialTransmissionStream.kt:48-49 | the timeline becomes the accepted one (own candidate or reconciled foreign offer) |
| TransmissionStreams.FixedChannel.RequestTransmission | net/src/test/kotlin/straightway/sim/net/TransmissionStreamMock.kt:25-27 | the stand-in offers its fixed receive time for any message, with no candidate |
| TransmissionStreams.FixedChannel.Accept | net/src/test/kotlin/straightway/sim/net/TransmissionStreamMock.kt:29-34 | the stand-in accepts every offer |
| TransmissionStreams.PurgedTimelineKeepsRecordInProgress | net/src/main/kotlin/straightway/sim/net/AsyncSequentialTransmissionStream.kt:86-90 | a reservation still in progress at now survives the purge; as written, the offer for [(0, 10)] at 5 with duration 3 is the unordered [(5, 3), (0, 10)] finishing at 8 while the channel is busy until 10; the corrected offer is [(5, 8)] |
| TransmissionStreams.PurgedTimelineKeepsRecordEndingNow | net/src/main/kotlin/straightway/sim/net/AsyncSequentialTransmissionStream.kt:86-90 | a reservation ending exactly at now survives the purge; as written, the offer for [(0, 5)] at 5 with duration 7 is [(5, 12)] finishing at 17; the corrected offer is [(5, 7)] finishing at 12 |
| Negotiation.Endpoint.Requested | net/src/main/kotlin/straightway/sim/net/AsyncSequentialTransmissionStream.kt:38-42 | an end's offer fails exactly when it is offline; otherwise, for a channel end, it is CreateOffer on its purged timeline, and for the stand-in, its fixed receive time with no candidate |
| Negotiation.RequestOn | net/src/main/kotlin/straightway/sim/net/AsyncSequentialTransmissionStream.kt:38-42 | asking an end for an offer returns the offer and only purges its timeline |
| Negotiation.AcceptOn | net/src/main/kotlin/straightway/sim/net/AsyncSequentialTransmissionStream.kt:44-47 | telling an end which offer won commits the accepted timeline, or returns the fault |
| Negotiation.TransmitRequest.constructor | net/src/main/kotlin/straightway/sim/net/TransmitRequest.kt:22-31 | a new request has its message size and sender and no receiver |
| Negotiation.TransmitRequest.To | net/src/main/kotlin/straightway/sim/net/TransmitRequest.kt:26-29 | `to` sets the receiver and returns the request itself |
| Negotiation.TransmitRequest.Receiver | net/src/main/kotlin/straightway/sim/net/TransmitRequest.kt:24 | the receiver is there exactly when it was set; reading it before fails with ReceiverNotSet |
| Negotiation.Choose | net/src/main/kotlin/straightway/sim/net/TransmitRequest.kt:45 | the chosen offer is one of the two, finishes no earlier than either, and is the sender's on a tie; the earlier revision (src/main/kotlin/straightway/sim/net/TransmitRequest.kt:17) picks the slower offer in the same way |
| Negotiation.CommitReservesBeforeFinish | net/src/main/kotlin/straightway/sim/net/TransmitRequest.kt:36-38 | committing the negotiated offer on an ordered timeline keeps it ordered, keeps every reservation from now on, and reserves the message's duration right before the finish time: always for a foreign offer, and for the end's own offer when none of its kept reservations began before now |
| Negotiation.RequestedFromPurged | net/src/main/kotlin/straightway/sim/net/AsyncSequentialTransmissionStream.kt:38-42 | an end asked again at the same instant after purging makes the same offer |
| Negotiation.SameIssuerSameEndpoint | net/src/main/kotlin/straightway/sim/net/AsyncSequentialTransmissionStream.kt:98 | the issuer identity determines the end |
| Negotiation.Negotiated | net/src/main/kotlin/straightway/sim/net/TransmitRequest.kt:42-46 | an offline sender fails first; then a missing receiver; then an offline receiver; the negotiation succeeds exactly when both ends are online and the receiver is set, with the chosen of the two ends' offers |
| Negotiation.NegotiatedOfferIssuedByAnEnd | net/src/main/kotlin/straightway/sim/net/TransmitRequest.kt:42-46 | the winning offer is the issuing end's own offer from its purged timeline |
| Negotiation.NegotiationReservesBothEnds | net/src/main/kotlin/straightway/sim/net/TransmitRequest.kt:35-46 | after a successful negotiation the common finish leaves room after now for each end's duration of the message, and the offer has the message's size. Every end with an ordered timeline gets an ordered timeline that keeps its future reservations and is busy for its own duration right before the common finish; for the end that issued the offer this needs that none of its kept reservations began before now |
| Negotiation.NegotiatedFinishLeavesRoom | net/src/main/kotlin/straightway/sim/net/TransmitRequest.kt:45 | the common finish is no earlier than now plus either end's duration for the message |
| Negotiation.RequestedLeavesRoom | net/src/main/kotlin/straightway/sim/net/AsyncSequentialTransmissionStream.kt:77-92 | an online end's own offer finishes no earlier than now plus its duration for the message |
| Negotiation.Negotiate | net/src/main/kotlin/straightway/sim/net/TransmitRequest.kt:42-46 | the sender is asked before the receiver; the result is the negotiated outcome, and each end that made an offer is purged, nothing else changes |
| Negotiation.RequestIsNoParty | net/src/main/kotlin/straightway/sim/net/TransmitRequest.kt:22-31 | the request is not one of the channels it connects |
| Negotiation.Commit | net/src/main/kotlin/straightway/sim/net/TransmitRequest.kt:37-38 | sender, then receiver, accept the same offer, and each end's timeline becomes the accepted one |
| Negotiation.ScheduleTransmission | net/src/main/kotlin/straightway/sim/net/TransmitRequest.kt:35-40 | a refused negotiation returns its fault with the asked ends purged; otherwise both ends commit the winning offer on their purged timelines and its finish time is returned; the earlier revision's `transmit` (src/main/kotlin/straightway/sim/net/TransmitRequest.kt:14-23) is the same sequence on channels without an online flag |
| ChannelScenarios.ExchangeIsNegotiation | src/main/kotlin/straightway/sim/net/TransmitRequest.kt:14-23 | between two distinct online channels, the exchange used in the scenarios is exactly the negotiation and commitment |
| ChannelScenarios.LowerBandwidthDecides | src/test/kotlin/straightway/sim/net/AsyncSequentialTransmissionStreamTest.kt:62-66 | 100 bit from 10 bit/s to 100 bit/s finishes at 10 s; the receiver reserves 9 s to 10 s |
| ChannelScenarios.SecondTransmissionGoesOnTop | src/test/kotlin/straightway/sim/net/AsyncSequentialTransmissionStreamTest.kt:68-73 | the same transmission again finishes at 20 s |
| ChannelScenarios.OfferOnTopOfBusyStart | src/test/kotlin/straightway/sim/net/AsyncSequentialTransmissionStreamTest.kt:68-73 | a 10 s request at 0 on a channel busy from 0 to 10 s finishes at 20 s |
| ChannelScenarios.OfferBeforeLaterReservation | src/test/kotlin/straightway/sim/net/AsyncSequentialTransmissionStreamTest.kt:82-87 | a request shorter than 9 s fits before a reservation from 9 s and finishes after its own duration |
| ChannelScenarios.SecondTransmissionOppositeDirection | src/test/kotlin/straightway/sim/net/AsyncSequentialTransmissionStreamTest.kt:75-80 | the opposite direction over the same channels also finishes at 20 s |
| ChannelScenarios.SecondTransmissionComesFirstIfGapIsLargeEnough | src/test/kotlin/straightway/sim/net/AsyncSequentialTransmissionStreamTest.kt:82-87 | a transmission that fits into the gap before the earlier reservation finishes at 1 s |
| ChannelScenarios.SecondTransmissionOverlapsFirst | src/test/kotlin/straightway/sim/net/AsyncSequentialTransmissionStreamTest.kt:89-94 | a 10 s request that does not fit before the 9 s reservation finishes at 11 s |
| ChannelScenarios.OfferAbsorbsReservation | src/test/kotlin/straightway/sim/net/AsyncSequentialTransmissionStreamTest.kt:89-94 | the 10 s request absorbs the reservation from 9 s to 10 s and ends at 11 s |
| ChannelScenarios.ThirdTransmissionOverlapsTwoPrevious | src/test/kotlin/straightway/sim/net/AsyncSequentialTransmissionStreamTest.kt:96-102 | a third transmission absorbing two earlier reservations finishes at 12 s |
| ChannelScenarios.OfferAbsorbsTwoReservations | src/test/kotlin/straightway/sim/net/AsyncSequentialTransmissionStreamTest.kt:96-102 | a 10 s request at 0 on reservations 1-2 s and 9-10 s ends at 12 s |
| ChannelScenarios.ForeignOfferAfterEarlierReservation | src/test/kotlin/straightway/sim/net/AsyncSequentialTransmissionStreamTest.kt:97-99 | a foreign 1 s reservation ending at 10 s is added after one from 1 s to 2 s |
| ChannelScenarios.ForeignOfferScheduledBefore | src/test/kotlin/straightway/sim/net/AsyncSequentialTransmissionStreamTest.kt:127-136 | a foreign 2 s offer ending at 10 s on a channel busy from 9 s to 10 s gives one block from 7 s to 10 s |
| ChannelScenarios.ForeignOfferEndsInsideReservation | src/test/kotlin/straightway/sim/net/AsyncSequentialTransmissionStreamTest.kt:144-154 | a foreign 1.9 s offer ending at 9.5 s gives one block from 7.1 s to 10 s |
| ChannelScenarios.ForeignOfferAddedInBetween | src/test/kotlin/straightway/sim/net/AsyncSequentialTransmissionStreamTest.kt:156-175 | a foreign 3 s offer ending at 15 s is inserted between the reservations at 9 s and 19 s |
| ChannelScenarios.OldTransmissionsAreCleanedUp | src/test/kotlin/straightway/sim/net/AsyncSequentialTransmissionStreamTest.kt:177-196 | 100 s later each channel keeps only the new transmission |
| Events.Sign | src/main/kotlin/straightway/sim/Event.kt:29-32 | a comparison result is -1, 0 or 1 with the sign of the difference |
| Events.CompareTo | src/main/kotlin/straightway/sim/Event.kt:29-32 | zero exactly when time and sequence number are equal; negative exactly when the time is earlier, or equal with a smaller sequence number |
| Events.EarlierTimePrecedes | src/test/kotlin/straightway/sim/EventTest.kt:50-55 | an earlier event compares as -1, whatever the sequence numbers |
| Events.CompareToAntisymmetric | src/main/kotlin/straightway/sim/Event.kt:29-32 | swapping the operands negates the comparison |
| Events.PrecedesTransitive | src/main/kotlin/straightway/sim/Event.kt:29-32 | the event order is transitive |
| Events.PrecedesTotal | src/main/kotlin/straightway/sim/Event.kt:29-32 | of two events with different keys exactly one comes first |
| Events.NatToStringRoundTrip | src/main/kotlin/straightway/sim/Event.kt:33 | the decimal digits of a time read back as that number |
| Events.IntToStringInjective | src/main/kotlin/straightway/sim/Event.kt:33 | different times are written differently |
| Events.ToString | src/main/kotlin/straightway/sim/Event.kt:33 | the text is as long as the written time plus the two separator characters plus the description (that it can be read back is ToStringDeterminesTimeAndDescription) |
| Events.ToStringDeterminesTimeAndDescription | src/test/kotlin/straightway/sim/EventTest.kt:86-90 | the text of an event determines its time and its description |
| Simulation.NextSequenceNumber | src/main/kotlin/straightway/sim/core/Simulator.kt:41 | the counter stays in the 32-bit signed range and advances by one modulo 2^32 |
| Simulation.SequenceNumberWraps | src/test/kotlin/straightway/sim/core/SimulatorTestSchedule.kt:81-85 | the counter wraps from the largest to the smallest value |
| Simulation.Insert | src/main/kotlin/straightway/sim/core/Simulator.kt:41-42 | adding to the ordered set keeps it strictly ordered; an event whose key is present leaves the set as it was; otherwise exactly that event is added |
| Simulation.Initial | src/main/kotlin/straightway/sim/core/Simulator.kt:66-68 | a fresh engine is idle at instant 0 with nothing queued and the counter at its smallest value, so the counter is ahead of the queue |
| Simulation.Scheduled | src/main/kotlin/straightway/sim/core/Simulator.kt:38-43 | scheduling keeps the clock and the running flag and advances the counter |
| Simulation.RunFrom | src/main/kotlin/straightway/sim/core/Simulator.kt:47-50 | a run stops paused or with an empty queue |
| Simulation.SteppedWeighsLess | src/main/kotlin/straightway/sim/core/Simulator.kt:47-50 | in the model, each executed event leaves strictly less of the finite plan of actions to do, so every modelled run ends |
| Simulation.PerformedEventsOrigin | src/main/kotlin/straightway/sim/core/Simulator.kt:61-64 | every event queued after an action ran was queued before or is one of its follow-ups at its delay after the event's time |
| Simulation.RunWithoutPauseEmptiesQueue | src/test/kotlin/straightway/sim/core/SimulatorTest_run.kt:48-57 | a run in which no action pauses executes everything, including events scheduled during the run, and ends with an empty queue |
| Simulation.SteppedNeverPauses | src/test/kotlin/straightway/sim/core/SimulatorTestSchedule.kt:57-66 | executing a non-pausing event keeps the run going, and everything it schedules is queued too |
| Simulation.PauseStopsAfterTheAction | src/test/kotlin/straightway/sim/core/SimulatorTestPause.kt:41-58 | a pausing action stops the run right after it; the clock is at its time and the other events stay queued for a later run |
| Simulation.PerformedKeepsQueued | src/main/kotlin/straightway/sim/core/Simulator.kt:42 | scheduling never drops a queued event |
| Simulation.SteppedCausal | src/main/kotlin/straightway/sim/core/Simulator.kt:59-64 | executing the least event moves the clock forward and leaves nothing queued before it |
| Simulation.RunNeverGoesBack | src/test/kotlin/straightway/sim/core/SimulatorTest_run.kt:35-46 | with non-negative delays a run never moves the clock backwards |
| Simulation.SameInstantBothKept | src/test/kotlin/straightway/sim/core/SimulatorTestSchedule.kt:74-79 | two events scheduled for the same instant are both queued |
| Simulation.ScheduledAfterSameInstant | src/main/kotlin/straightway/sim/core/Simulator.kt:41-42 | while every queued sequence number is below the counter, a newly scheduled event is queued and comes after every queued event of the same instant |
| Simulation.ScheduledKeepsCounterAhead | src/main/kotlin/straightway/sim/core/Simulator.kt:41 | scheduling keeps every queued sequence number below the counter, which advances by one, as long as it has not reached the largest value |
| Simulation.PerformedKeepsCounterAhead | src/main/kotlin/straightway/sim/core/Simulator.kt:61-64 | scheduling an action's follow-ups keeps the counter ahead of the queue when there is room for one number per follow-up |
| Simulation.SteppedKeepsCounterAhead | src/main/kotlin/straightway/sim/core/Simulator.kt:59-64 | executing the least event keeps the counter ahead of the queue when its follow-ups do not make the counter wrap; with Initial (the counter at its smallest value and nothing queued), this holds from the start until the counter wraps |
| Simulation.SortedPosition | src/main/kotlin/straightway/sim/core/Simulator.kt:66 | in the ordered set an event that precedes another sits before it |
| Simulation.SameInstantFirstInFirstOut | src/main/kotlin/straightway/sim/core/Simulator.kt:41-42 | two events scheduled one after the other for the same instant, before the counter wraps, are both queued and the first one sits (and runs) first |
| Simulation.WrappedCounterReversesOrder | src/main/kotlin/straightway/sim/core/Simulator.kt:41 | once the counter has wrapped the order reverses: of an event numbered with the largest value and one scheduled after it for the same instant, the later one is queued first |
| Simulation.Simulator.constructor | src/main/kotlin/straightway/sim/core/Simulator.kt:31-34 | a new simulator is in the initial state |
| Simulation.Simulator.Schedule | src/main/kotlin/straightway/sim/core/Simulator.kt:38-43 | the new state is the scheduling transition: one event at now plus the delay with the next sequence number, not executed |
| Simulation.Simulator.Run | src/main/kotlin/straightway/sim/core/Simulator.kt:45-51 | the loop ends in the state of a run started from the old state |
| Simulation.Simulator.Pause | src/main/kotlin/straightway/sim/core/Simulator.kt:53 | only the running flag is cleared |
| Simulation.Simulator.Reset | src/main/kotlin/straightway/sim/core/Simulator.kt:55 | the queue is emptied; the clock and the rest stay |
| Simulation.Simulator.PopNextEvent | src/main/kotlin/straightway/sim/core/Simulator.kt:59 | the least event is removed and returned; it precedes every event left |
| Simulation.Simulator.Execute | src/main/kotlin/straightway/sim/core/Simulator.kt:61-64 | the clock jumps to the event's time, then its follow-ups are scheduled in order and the run pauses if the action does |

## Left out

- Units and floating point: `LocalDateTime`, `UnitValue` and size ÷ bandwidth are replaced by integer nanoseconds and an integral time per unit of data. A bandwidth whose reciprocal is no whole number of nanoseconds per bit (the 300 bit/s channel of `twoFilledOverlayGaps`) cannot be expressed, so that test is not among the scenarios.
- The 10 ns tolerance of record equality is modelled (`Matches`), but the timeline algebra compares instants exactly. With integer time, the tolerance only matters for rounding in floating-point units, which the model does not have.
- `hashCode` of the records and the data-class accessors carry no behaviour of their own.
- Events.CompareTo: only the sign of `LocalDateTime.compareTo` is modelled, not its magnitude.
- Events.ToString: the time is written as the integer number of nanoseconds since the start instant, not in ISO date-time form.
- Event actions are data. An action's schedule calls and its pause are modelled. An action that calls `reset` or `run` itself, or that has other side effects, is not.
- Simulation.SteppedWeighsLess: an action is finite data, so it cannot schedule itself again, directly or through its follow-ups. Every modelled run therefore ends. The program's run loop (`src/main/kotlin/straightway/sim/core/Simulator.kt:47-50`) does not end when an action keeps rescheduling itself; such runs are not modelled.
- TransmissionStreams.OfferReservesFromNow: proved only when none of the kept reservations began before now. Otherwise the program's offer can be unordered and finish early, or finish late by the length of a kept reservation (see Findings). `CorrectedOfferReservesFromNow` states the property for every ordered timeline, for the corrected offer.
- Negotiation.CommitReservesBeforeFinish: for the end's own offer, proved only when none of its kept reservations began before now, for the same reason. A foreign offer is covered on every ordered timeline.
- Negotiation.NegotiationReservesBothEnds: the commit half is proved for the issuing end only when none of its kept reservations began before now, for the same reason. That the finish leaves room after now holds without this condition.
- Negotiation.ScheduleTransmission: a `Panic` or a missing receiver is a `Failure` result rather than an exception. After a fault the model stops, as the exception would.
- The message is modelled by its size alone, and the offer carries that size in place of the request.
- The test stand-in's log of calls is left out. `FixedChannel` models only its fixed offer and its acceptance.
- `InterceptingScheduler`, `Network`, `Node` and `PartialTransmission` are not part of this model. They are glue and observation hooks around the modelled core.
- The time provider is a parameter (`now`) of the operations that read it.

## Findings

| source | as written | input that shows it | evidently intended | confidence | as-written member | corrected member |
|---|---|---|---|---|---|---|
| net/src/main/kotlin/straightway/sim/net/AsyncSequentialTransmissionStream.kt:86-90 | purging keeps every reservation that has not ended before now, including one that began before now. The scheduler then places the request from now on the whole timeline, so the gap before that reservation is negative | timeline [(0, 10)], now 5, duration 3: the candidate is [(5, 3), (0, 10)], which overlaps and finishes at 8 while the channel is busy until 10 (with duration 7 it is [(5, 17)], finishing at 22 instead of 17). Timeline [(0, 5)], now 5, duration 7: the candidate is [(5, 12)], finishing at 17 instead of 12 | the request is placed from now on the part of the timeline from now on: [(5, 8)] and [(5, 7)] | not executed; medium (the sequential channel evidently must not send twice at once, nor reserve time it does not use) | TransmissionStreams.PurgedTimelineKeepsRecordInProgress | TransmissionStreams.CorrectedOfferReservesFromNow |

The channels, the ends of the negotiation and the scenarios use the offer
as written (`CreateOffer`). The corrected offer (`CorrectedOffer`) places
the request with `ScheduleFrom`, on the second half of a cut of the
timeline at now. It is ordered and reserves exactly the future reservations
plus now up to its finish, on every ordered timeline. When no kept
reservation began before now, both offers are the same
(`ScheduleFromAgrees`), and the properties of the corrected offer carry
over to the program's (`OfferReservesFromNow`). The same placement is in
the earlier revision (`src/main/kotlin/straightway/sim/net/AsyncSequentialTransmissionStream.kt:78-79`).
`PurgedTimelineKeepsRecordEndingNow` shows the second input.

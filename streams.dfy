/** A channel that transmits one message after the other. Each channel keeps
    its own timeline of reservations; a transmission is negotiated by asking
    a channel for an offer (a tentative timeline that is not committed) and
    then telling it which offer was accepted, its own or a foreign one. */
module TransmissionStreams {
  import opened TransmissionRecords
  import opened TransmissionScheduling
  import opened TimeReversal

  /** What an offer carries for its issuer: the candidate timeline with the
      request in place, or nothing. */
  datatype Memento = Candidate(timeline: seq<Record>) | NoPayload

  /** A tentative transmission: who offered it, when it would be finished,
      the size of the message and the issuer's memento. */
  datatype Offer = Offer(issuer: object, finishTime: int, size: nat, memento: Memento)

  datatype Fault =
    | StreamOffline        // the channel is offline
    | MementoNotACandidate // an own offer whose memento is no timeline
    | ReceiverNotSet       // the request has no receiver yet

  datatype Result<T> = Success(value: T) | Failure(fault: Fault)

  /** The timeline without its leading records that ended strictly before
      `now`; dropping stops at the first record that has not ended. */
  function DropExpired(ts: seq<Record>, now: int): (r: seq<Record>)
    ensures |r| <= |ts| && r == ts[|ts| - |r|..]
    ensures forall i :: 0 <= i < |ts| - |r| ==> ts[i].EndTime() < now
    ensures r != [] ==> now <= r[0].EndTime()
    decreases |ts|
  {
    if ts != [] && ts[0].EndTime() < now then DropExpired(ts[1..], now) else ts
  }

  /** Purging twice at the same instant purges nothing more. */
  lemma {:induction false} DropExpiredIdempotent(ts: seq<Record>, now: int)
    ensures DropExpired(DropExpired(ts, now), now) == DropExpired(ts, now)
  {
    var r := DropExpired(ts, now);
    if r != [] {
      assert !(r[0].EndTime() < now);
    }
  }

  /** Purging an ordered timeline keeps it ordered and forgets only the
      past: from `now` on, the same instants are reserved. */
  lemma {:induction false} DropExpiredKeepsFuture(ts: seq<Record>, now: int)
    requires Ordered(ts)
    ensures Ordered(DropExpired(ts, now))
    ensures forall x :: now <= x ==> (Busy(DropExpired(ts, now), x) <==> Busy(ts, x))
  {
    OrderedTail(ts, |ts| - |DropExpired(ts, now)|);
    forall x | now <= x ensures Busy(DropExpired(ts, now), x) <==> Busy(ts, x) {
      DropExpiredBusyAt(ts, now, x);
    }
  }

  /** An instant from `now` on is covered by a purged record only if it is
      covered by a kept one. */
  lemma {:induction false} DropExpiredBusyAt(ts: seq<Record>, now: int, x: int)
    requires now <= x
    ensures Busy(DropExpired(ts, now), x) <==> Busy(ts, x)
  {
    var r := DropExpired(ts, now);
    var k := |ts| - |r|;
    assert ts == ts[..k] + r;
    BusyAppend(ts[..k], r, x);
    forall i | 0 <= i < k ensures !(ts[..k][i].startTime <= x < ts[..k][i].EndTime()) {
      assert ts[..k][i] == ts[i];
    }
  }

  /** The offer a channel makes: the request placed from `now` into the
      whole (purged) timeline, reported by the end of its head record. */
  function CreateOffer(issuer: object, ts: seq<Record>, now: int, size: nat, duration: int): (o: Offer)
    ensures o.issuer == issuer && o.size == size && o.memento.Candidate?
    ensures o.memento.timeline != [] && o.memento.timeline[0].startTime == now
    ensures o.finishTime == o.memento.timeline[0].EndTime()
  {
    var schedule := Transmissions(ts, now, duration);
    Offer(issuer, schedule[0].EndTime(), size, Candidate(schedule))
  }

  /** On any timeline whose reservations have non-negative durations, the
      offer finishes no earlier than `now` plus the duration. */
  lemma {:induction false} OfferLeavesRoom(issuer: object, ts: seq<Record>, now: int, size: nat, duration: int)
    requires Ordered(ts) && duration >= 0
    ensures now + duration <= CreateOffer(issuer, ts, now, size, duration).finishTime
  {
    ScheduleLeavesRoom(ts, now, duration);
  }

  /** On an ordered timeline none of whose reservations began before `now`,
      the offer's candidate is ordered and reserves the timeline's
      reservations plus exactly the span from `now` to the finish. */
  lemma {:induction false} OfferReservesFromNow(issuer: object, ts: seq<Record>, now: int, size: nat, duration: int)
    requires Ordered(ts) && duration >= 0 && NoneBegunBefore(ts, now)
    ensures now + duration <= CreateOffer(issuer, ts, now, size, duration).finishTime
    ensures Ordered(CreateOffer(issuer, ts, now, size, duration).memento.timeline)
    ensures forall x :: Busy(CreateOffer(issuer, ts, now, size, duration).memento.timeline, x)
                        <==> (Busy(ts, x) && now <= x) || now <= x < CreateOffer(issuer, ts, now, size, duration).finishTime
  {
    ScheduleFromAgrees(ts, now, duration);
    ScheduleFromOrdered(ts, now, duration);
  }

  /** The offer with the corrected placement: the request is placed from
      `now` into the part of the timeline after `now`. */
  function CorrectedOffer(issuer: object, ts: seq<Record>, now: int, size: nat, duration: int): (o: Offer)
    ensures o.issuer == issuer && o.size == size && o.memento.Candidate?
    ensures o.memento.timeline != [] && o.memento.timeline[0].startTime == now
    ensures o.finishTime == o.memento.timeline[0].EndTime()
  {
    var schedule := ScheduleFrom(ts, now, duration);
    Offer(issuer, schedule[0].EndTime(), size, Candidate(schedule))
  }

  /** On every ordered timeline the corrected offer finishes no earlier than
      `now` plus the duration, its candidate is ordered, and the candidate
      reserves the future reservations plus exactly the span from `now` to
      the finish; where no reservation began before `now` it is the
      channel's offer. */
  lemma {:induction false} CorrectedOfferReservesFromNow(issuer: object, ts: seq<Record>, now: int, size: nat, duration: int)
    requires Ordered(ts) && duration >= 0
    ensures now + duration <= CorrectedOffer(issuer, ts, now, size, duration).finishTime
    ensures Ordered(CorrectedOffer(issuer, ts, now, size, duration).memento.timeline)
    ensures forall x :: Busy(CorrectedOffer(issuer, ts, now, size, duration).memento.timeline, x)
                        <==> (Busy(ts, x) && now <= x) || now <= x < CorrectedOffer(issuer, ts, now, size, duration).finishTime
    ensures NoneBegunBefore(ts, now) ==> CorrectedOffer(issuer, ts, now, size, duration) == CreateOffer(issuer, ts, now, size, duration)
  {
    ScheduleFromOrdered(ts, now, duration);
    if NoneBegunBefore(ts, now) {
      ScheduleFromAgrees(ts, now, duration);
    }
  }

  /** The timeline a channel commits when it accepts an offer: its own
      offer's candidate, or the foreign offer's reservation placed to end at
      the offer's finish time, lasting as long as this channel needs for the
      message. */
  function Accepted(ts: seq<Record>, self: object, timePerUnit: nat, offer: Offer): (r: Result<seq<Record>>)
    ensures offer.issuer == self && offer.memento.Candidate? ==> r == Success(offer.memento.timeline)
    ensures offer.issuer == self && offer.memento.NoPayload? ==> r == Failure(MementoNotACandidate)
    ensures offer.issuer != self ==> r == Success(ForeignTimeline(ts, offer.finishTime, offer.size * timePerUnit))
  {
    if offer.issuer == self then
      match offer.memento
      case Candidate(candidate) => Success(candidate)
      case NoPayload => Failure(MementoNotACandidate)
    else
      Success(ForeignTimeline(ts, offer.finishTime, offer.size * timePerUnit))
  }

  /** A channel's committed timeline stays ordered when it accepts an own
      offer that was made from an ordered timeline, or any foreign offer. */
  lemma {:induction false} AcceptedOrdered(ts: seq<Record>, self: object, timePerUnit: nat, offer: Offer)
    requires Ordered(ts)
    requires offer.issuer == self ==> offer.memento.Candidate? && Ordered(offer.memento.timeline)
    ensures Accepted(ts, self, timePerUnit, offer).Success?
    ensures Ordered(Accepted(ts, self, timePerUnit, offer).value)
  {
    if offer.issuer != self {
      ForeignReservation(ts, offer.finishTime, offer.size * timePerUnit);
    }
  }

  /** A channel whose transmission time per unit of data is fixed (the
      reciprocal of its bandwidth), with an online flag. */
  class Channel {
    const timePerUnit: nat
    var isOnline: bool
    var timeline: seq<Record>

    /** A new channel is online and has nothing reserved. */
    constructor(timePerUnit: nat)
      ensures this.timePerUnit == timePerUnit && isOnline && timeline == []
      ensures Valid()
    {
      this.timePerUnit := timePerUnit;
      isOnline := true;
      timeline := [];
    }

    ghost predicate Valid()
      reads this
    {
      Ordered(timeline)
    }

    /** Purge the expired reservations and offer the request's placement
      from `now`; the offer is not committed. Offline channels refuse. */
    method RequestTransmission(size: nat, now: int) returns (r: Result<Offer>)
      modifies this
      ensures isOnline == old(isOnline)
      ensures !isOnline ==> r == Failure(StreamOffline) && timeline == old(timeline)
      ensures isOnline ==> timeline == DropExpired(old(timeline), now)
                           && r == Success(CreateOffer(this, timeline, now, size, size * timePerUnit))
      ensures old(Valid()) ==> Valid()
    {
      if !isOnline {
        return Failure(StreamOffline);
      }
      ghost var before := timeline;
      timeline := DropExpired(timeline, now);
      if Ordered(before) {
        DropExpiredKeepsFuture(before, now);
      }
      r := Success(CreateOffer(this, timeline, now, size, size * timePerUnit));
    }

    /** Commit an offer: adopt the candidate of an own offer, or reconcile a
      foreign one. Offline channels refuse. */
    method Accept(offer: Offer) returns (r: Result<()>)
      modifies this
      ensures isOnline == old(isOnline)
      ensures !isOnline ==> r == Failure(StreamOffline) && timeline == old(timeline)
      ensures isOnline ==>
                var a := Accepted(old(timeline), this, timePerUnit, offer);
                (a.Success? ==> r == Success(()) && timeline == a.value)
                && (a.Failure? ==> r == Failure(a.fault) && timeline == old(timeline))
      ensures old(Valid()) && offer.issuer != this ==> Valid()
    {
      if !isOnline {
        return Failure(StreamOffline);
      }
      if offer.issuer == this {
        match offer.memento
        case Candidate(candidate) =>
          timeline := candidate;
          r := Success(());
        case NoPayload =>
          r := Failure(MementoNotACandidate);
      } else {
        if Ordered(timeline) {
          ForeignReservation(timeline, offer.finishTime, offer.size * timePerUnit);
        }
        timeline := ForeignTimeline(timeline, offer.finishTime, offer.size * timePerUnit);
        r := Success(());
      }
    }
  }

  /** The earlier revision of the channel: the same algorithm without an
      online flag. */
  class LegacyChannel {
    const timePerUnit: nat
    var timeline: seq<Record>

    constructor(timePerUnit: nat)
      ensures this.timePerUnit == timePerUnit && timeline == []
      ensures Valid()
    {
      this.timePerUnit := timePerUnit;
      timeline := [];
    }

    ghost predicate Valid()
      reads this
    {
      Ordered(timeline)
    }

    method RequestTransmission(size: nat, now: int) returns (offer: Offer)
      modifies this
      ensures timeline == DropExpired(old(timeline), now)
      ensures offer == CreateOffer(this, timeline, now, size, size * timePerUnit)
      ensures old(Valid()) ==> Valid()
    {
      ghost var before := timeline;
      timeline := DropExpired(timeline, now);
      if Ordered(before) {
        DropExpiredKeepsFuture(before, now);
      }
      offer := CreateOffer(this, timeline, now, size, size * timePerUnit);
    }

    method Accept(offer: Offer) returns (r: Result<()>)
      modifies this
      ensures var a := Accepted(old(timeline), this, timePerUnit, offer);
              (a.Success? ==> r == Success(()) && timeline == a.value)
              && (a.Failure? ==> r == Failure(a.fault) && timeline == old(timeline))
      ensures old(Valid()) && offer.issuer != this ==> Valid()
    {
      if offer.issuer == this {
        match offer.memento
        case Candidate(candidate) =>
          timeline := candidate;
          r := Success(());
        case NoPayload =>
          r := Failure(MementoNotACandidate);
      } else {
        if Ordered(timeline) {
          ForeignReservation(timeline, offer.finishTime, offer.size * timePerUnit);
        }
        timeline := ForeignTimeline(timeline, offer.finishTime, offer.size * timePerUnit);
        r := Success(());
      }
    }
  }

  /** A stand-in channel that always offers the same receive time, carries no
      candidate, and commits nothing. */
  class FixedChannel {
    var receiveTime: int

    constructor(receiveTime: int)
      ensures this.receiveTime == receiveTime
    {
      this.receiveTime := receiveTime;
    }

    method RequestTransmission(size: nat) returns (offer: Offer)
      ensures offer == Offer(this, receiveTime, size, NoPayload)
    {
      offer := Offer(this, receiveTime, size, NoPayload);
    }

    method Accept(offer: Offer) returns (r: Result<()>)
      ensures r == Success(())
    {
      r := Success(());
    }
  }

  /** After purging, a reservation that has begun before `now` stays in the
      timeline when it has not ended by `now`. The channel's offer then
      places a request that fits in the (negative) gap on top of it: an
      unordered candidate that finishes early. The corrected offer queues
      behind it. */
  lemma {:induction false} PurgedTimelineKeepsRecordInProgress(issuer: object)
    ensures DropExpired([Record(0, 10)], 5) == [Record(0, 10)]
    ensures CreateOffer(issuer, [Record(0, 10)], 5, 3, 3).memento == Candidate([Record(5, 3), Record(0, 10)])
    ensures !Ordered([Record(5, 3), Record(0, 10)])
    ensures CreateOffer(issuer, [Record(0, 10)], 5, 3, 3).finishTime == 8
    ensures CorrectedOffer(issuer, [Record(0, 10)], 5, 3, 3).memento == Candidate([Record(5, 8)])
  {
    KeptLiterals();
    InProgressRecordOverlaps();
    CorrectedPlacementExamples();
    OfferTimelines(issuer, [Record(0, 10)], 5, 3, 3);
  }

  /** A kept reservation that ends exactly at `now` is absorbed by a request
      that does not fit in the negative gap before it: the channel's offer
      finishes late by the length of that reservation, the corrected offer
      right after the request's duration. */
  lemma {:induction false} PurgedTimelineKeepsRecordEndingNow(issuer: object)
    ensures DropExpired([Record(0, 5)], 5) == [Record(0, 5)]
    ensures CreateOffer(issuer, [Record(0, 5)], 5, 7, 7).memento == Candidate([Record(5, 12)])
    ensures CreateOffer(issuer, [Record(0, 5)], 5, 7, 7).finishTime == 17
    ensures CorrectedOffer(issuer, [Record(0, 5)], 5, 7, 7).memento == Candidate([Record(5, 7)])
    ensures CorrectedOffer(issuer, [Record(0, 5)], 5, 7, 7).finishTime == 12
  {
    KeptLiterals();
    RecordEndingNowAbsorbed();
    CorrectedPlacementExamples();
    OfferTimelines(issuer, [Record(0, 5)], 5, 7, 7);
  }

  /** The purge keeps a reservation that ends at or after `now`. */
  lemma {:induction false} KeptLiterals()
    ensures DropExpired([Record(0, 10)], 5) == [Record(0, 10)]
    ensures DropExpired([Record(0, 5)], 5) == [Record(0, 5)]
  {
  }

  /** The channel's offer carries the placement on the whole timeline, the
      corrected offer the placement from `now`. */
  lemma {:induction false} OfferTimelines(issuer: object, ts: seq<Record>, now: int, size: nat, duration: int)
    ensures CreateOffer(issuer, ts, now, size, duration).memento.timeline == Transmissions(ts, now, duration)
    ensures CorrectedOffer(issuer, ts, now, size, duration).memento.timeline == ScheduleFrom(ts, now, duration)
  {
  }
}

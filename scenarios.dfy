/** Transmissions between channels worked through on concrete timelines, in
    nanoseconds, using the functions the negotiation is proved against. */
module ChannelScenarios {
  import opened TransmissionRecords
  import opened TransmissionScheduling
  import opened TimeReversal
  import opened TransmissionStreams
  import opened Negotiation

  const Second: int := 1_000_000_000

  /** Nanoseconds per bit for a bandwidth in bit per second. */
  const At10: nat := 100_000_000
  const At100: nat := 10_000_000
  const At200: nat := 5_000_000
  const At1000: nat := 1_000_000

  datatype Exchanged = Exchanged(finishTime: int, senderTimeline: seq<Record>, receiverTimeline: seq<Record>)

  /** One transmission between two channels given by their timelines and
      speeds: both purge and offer, the later offer wins, both commit it. */
  function Exchange(sender: object, senderTimeline: seq<Record>, senderTime: nat,
                    receiver: object, receiverTimeline: seq<Record>, receiverTime: nat,
                    size: nat, now: int): Exchanged
  {
    var sendPurged := DropExpired(senderTimeline, now);
    var receivePurged := DropExpired(receiverTimeline, now);
    var chosen := Choose(CreateOffer(sender, sendPurged, now, size, size * senderTime),
                         CreateOffer(receiver, receivePurged, now, size, size * receiverTime));
    Exchanged(chosen.finishTime,
              Accepted(sendPurged, sender, senderTime, chosen).value,
              Accepted(receivePurged, receiver, receiverTime, chosen).value)
  }

  /** The exchange is what negotiating and committing between two distinct
      online channels yields. */
  lemma {:induction false} ExchangeIsNegotiation(c: Channel, d: Channel, size: nat, now: int)
    requires c != d && c.isOnline && d.isOnline
    ensures var o := Negotiated(Stream(c), Some(Stream(d)), size, now);
            var x := Exchange(c, c.timeline, c.timePerUnit, d, d.timeline, d.timePerUnit, size, now);
            o.Success? && o.value.finishTime == x.finishTime
            && Accepted(DropExpired(c.timeline, now), c, c.timePerUnit, o.value).value == x.senderTimeline
            && Accepted(DropExpired(d.timeline, now), d, d.timePerUnit, o.value).value == x.receiverTimeline
  {
  }

  /** The exchange finishes when the later of the two offers does. */
  lemma {:induction false} ExchangeFinishesWithLaterOffer(sender: object, senderTimeline: seq<Record>, senderTime: nat,
                                                          receiver: object, receiverTimeline: seq<Record>, receiverTime: nat,
                                                          size: nat, now: int, sendFinish: int, receiveFinish: int)
    requires CreateOffer(sender, DropExpired(senderTimeline, now), now, size, size * senderTime).finishTime == sendFinish
    requires CreateOffer(receiver, DropExpired(receiverTimeline, now), now, size, size * receiverTime).finishTime == receiveFinish
    ensures Exchange(sender, senderTimeline, senderTime, receiver, receiverTimeline, receiverTime, size, now).finishTime
            == if sendFinish < receiveFinish then receiveFinish else sendFinish
  {
  }

  /** On an empty timeline an offer finishes after exactly its duration. */
  lemma {:induction false} OfferOnEmptyTimeline(issuer: object, now: int, size: nat, duration: int)
    ensures CreateOffer(issuer, DropExpired([], now), now, size, duration).finishTime == now + duration
  {
    assert DropExpired([], now) == [];
    assert Transmissions([], now, duration) == [Record(now, duration)];
  }

  /** 100 bit from a 10 bit/s to a 100 bit/s channel: the slower channel
      decides, 10 s; the faster one reserves its 1 s right before that. */
  lemma {:induction false} LowerBandwidthDecides(a: object, b: object)
    requires a != b
    ensures Exchange(a, [], At10, b, [], At100, 100, 0)
            == Exchanged(10 * Second, [Record(0, 10 * Second)], [Record(9 * Second, Second)])
  {
    assert SplitAt([], 10 * Second) == ([], []);
    assert Transmissions([], 10 * Second, -Second) == [Record(10 * Second, -Second)];
  }

  /** The same transmission again at instant 0 queues behind the first one
      and finishes at 20 s. */
  lemma {:induction false} SecondTransmissionGoesOnTop(a: object, b: object)
    requires a != b
    ensures Exchange(a, [Record(0, 10 * Second)], At10, b, [Record(9 * Second, Second)], At100, 100, 0).finishTime
            == 20 * Second
  {
    assert DropExpired([Record(0, 10 * Second)], 0) == [Record(0, 10 * Second)];
    assert DropExpired([Record(9 * Second, Second)], 0) == [Record(9 * Second, Second)];
    OfferOnTopOfBusyStart(a);
    OfferBeforeLaterReservation(b, 100, At100);
  }

  /** A 10 s request at instant 0 on a channel busy from 0 to 10 s. */
  lemma {:induction false} OfferOnTopOfBusyStart(a: object)
    ensures CreateOffer(a, [Record(0, 10 * Second)], 0, 100, 100 * At10).finishTime == 20 * Second
  {
    assert Transmissions([], 10 * Second, 10 * Second) == [Record(10 * Second, 10 * Second)];
  }

  /** A request at instant 0 that fits before a reservation from 9 s to
      10 s is placed first and finishes early. */
  lemma {:induction false} OfferBeforeLaterReservation(b: object, size: nat, timePerUnit: nat)
    requires size * timePerUnit < 9 * Second
    ensures CreateOffer(b, [Record(9 * Second, Second)], 0, size, size * timePerUnit).finishTime == size * timePerUnit
  {
  }

  /** The same channels in the opposite direction: the faster sender fits
      before its reservation, but the slower receiver queues behind its own,
      so the transmission again finishes at 20 s. */
  lemma {:induction false} SecondTransmissionOppositeDirection(a: object, b: object)
    requires a != b
    ensures Exchange(b, [Record(9 * Second, Second)], At100, a, [Record(0, 10 * Second)], At10, 100, 0).finishTime
            == 20 * Second
  {
    assert DropExpired([Record(0, 10 * Second)], 0) == [Record(0, 10 * Second)];
    assert DropExpired([Record(9 * Second, Second)], 0) == [Record(9 * Second, Second)];
    OfferOnTopOfBusyStart(a);
    OfferBeforeLaterReservation(b, 100, At100);
  }

  /** A short transmission from the 100 bit/s channel to a fresh 1000 bit/s
      channel fits into the gap before the 9 s reservation: 1 s. */
  lemma {:induction false} SecondTransmissionComesFirstIfGapIsLargeEnough(b: object, e: object)
    requires b != e
    ensures Exchange(b, [Record(9 * Second, Second)], At100, e, [], At1000, 100, 0).finishTime == Second
  {
    assert DropExpired([Record(9 * Second, Second)], 0) == [Record(9 * Second, Second)];
    OfferBeforeLaterReservation(b, 100, At100);
    OfferOnEmptyTimeline(e, 0, 100, 100 * At1000);
    ExchangeFinishesWithLaterOffer(b, [Record(9 * Second, Second)], At100, e, [], At1000, 100, 0, Second, 100_000_000);
  }

  /** A request of 10 s on a 100 bit/s channel busy from 9 s to 10 s cannot
      fit in the gap: it absorbs that reservation and finishes at 11 s. */
  lemma {:induction false} SecondTransmissionOverlapsFirst(b: object, d: object)
    requires b != d
    ensures Exchange(b, [Record(9 * Second, Second)], At100, d, [], At200, 1000, 0).finishTime == 11 * Second
  {
    assert DropExpired([Record(9 * Second, Second)], 0) == [Record(9 * Second, Second)];
    OfferAbsorbsReservation(b);
    OfferOnEmptyTimeline(d, 0, 1000, 1000 * At200);
    ExchangeFinishesWithLaterOffer(b, [Record(9 * Second, Second)], At100, d, [], At200, 1000, 0, 11 * Second, 5 * Second);
  }

  /** A 10 s request at instant 0 on a channel busy from 9 s to 10 s. */
  lemma {:induction false} OfferAbsorbsReservation(b: object)
    ensures CreateOffer(b, [Record(9 * Second, Second)], 0, 1000, 1000 * At100).finishTime == 11 * Second
  {
    assert Transmissions([], 10 * Second, Second) == [Record(10 * Second, Second)];
  }

  /** After reservations from 1 s to 2 s and from 9 s to 10 s, a 10 s
      request at instant 0 absorbs both and finishes at 12 s. */
  lemma {:induction false} ThirdTransmissionOverlapsTwoPrevious(b: object, d: object)
    requires b != d
    ensures Exchange(b, [Record(Second, Second), Record(9 * Second, Second)], At100, d, [], At200, 1000, 0).finishTime
            == 12 * Second
  {
    var ts := [Record(Second, Second), Record(9 * Second, Second)];
    assert DropExpired(ts, 0) == ts;
    OfferAbsorbsTwoReservations(b);
    OfferOnEmptyTimeline(d, 0, 1000, 1000 * At200);
    ExchangeFinishesWithLaterOffer(b, ts, At100, d, [], At200, 1000, 0, 12 * Second, 5 * Second);
  }

  /** A 10 s request at instant 0 on reservations from 1 s to 2 s and from
      9 s to 10 s: 1 s before the first gap, 7 s in the second, 2 s after. */
  lemma {:induction false} OfferAbsorbsTwoReservations(b: object)
    ensures CreateOffer(b, [Record(Second, Second), Record(9 * Second, Second)], 0, 1000, 1000 * At100).finishTime
            == 12 * Second
  {
    var ts := [Record(Second, Second), Record(9 * Second, Second)];
    assert ts[1..] == [Record(9 * Second, Second)];
    assert Transmissions([], 10 * Second, 2 * Second) == [Record(10 * Second, 2 * Second)];
    assert Transmissions(ts[1..], 2 * Second, 9 * Second) == [Record(2 * Second, 10 * Second)];
  }

  /** The reservation the 100 bit/s channel holds after the first
      transmission of that scenario, added to one from 1 s to 2 s. */
  lemma {:induction false} ForeignOfferAfterEarlierReservation()
    ensures ForeignTimeline([Record(Second, Second)], 10 * Second, Second)
            == [Record(Second, Second), Record(9 * Second, Second)]
  {
    var ts := [Record(Second, Second)];
    assert SplitAt(ts, 10 * Second) == (ts, []);
    assert Reversed(ts) == [Record(2 * Second, -Second)];
    assert Transmissions(Reversed(ts), 10 * Second, -Second) == [Record(10 * Second, -Second)] + Reversed(ts);
    assert Reversed([Record(10 * Second, -Second), Record(2 * Second, -Second)])
           == [Record(Second, Second), Record(9 * Second, Second)];
  }

  /** A foreign offer finishing at 10 s for 2 s on a channel busy from 9 s
      to 10 s is placed before that reservation: one block from 7 s to 10 s. */
  lemma {:induction false} ForeignOfferScheduledBefore()
    ensures ForeignTimeline([Record(9 * Second, Second)], 10 * Second, 2 * Second) == [Record(7 * Second, 3 * Second)]
  {
    var ts := [Record(9 * Second, Second)];
    assert SplitAt(ts, 10 * Second) == (ts, []) by {
      SplitAtCases(ts, 10 * Second);
      assert ts[1..] == [];
      SplitAtCases([], 10 * Second);
      assert SplitAt(ts, 10 * Second) == ([ts[0]] + SplitAt(ts[1..], 10 * Second).0, SplitAt(ts[1..], 10 * Second).1);
      assert [ts[0]] + [] == ts;
    }
    assert Reversed(ts) == [Record(10 * Second, -Second)];
    assert Transmissions([], 9 * Second, -Second) == [Record(9 * Second, -Second)];
    assert Transmissions(Reversed(ts), 10 * Second, -2 * Second) == [Record(10 * Second, -3 * Second)];
  }

  /** A foreign offer finishing at 9.5 s for 1.9 s, inside a reservation from
      9 s to 10 s: the part before 9.5 s is moved out of the way, leaving one
      block from 7.1 s to 10 s. */
  lemma {:induction false} ForeignOfferEndsInsideReservation()
    ensures ForeignTimeline([Record(9 * Second, Second)], 9_500_000_000, 1_900_000_000)
            == [Record(7_100_000_000, 2_900_000_000)]
  {
    var ts := [Record(9 * Second, Second)];
    assert SplitAt(ts, 9_500_000_000) == ([Record(9 * Second, 500_000_000)], [Record(9_500_000_000, 500_000_000)]) by {
      SplitAtCases(ts, 9_500_000_000);
      assert ts[1..] == [];
      assert [Record(9_500_000_000, 500_000_000)] + ts[1..] == [Record(9_500_000_000, 500_000_000)];
    }
    assert Reversed([Record(9 * Second, 500_000_000)]) == [Record(9_500_000_000, -500_000_000)];
    assert Transmissions([], 9 * Second, -1_400_000_000) == [Record(9 * Second, -1_400_000_000)];
    assert Transmissions([Record(9_500_000_000, -500_000_000)], 9_500_000_000, -1_900_000_000)
           == [Record(9_500_000_000, -2_400_000_000)];
  }

  /** A foreign reservation that fits between two reservations is added in
      between, ending at the offer's finish time. */
  lemma {:induction false} ForeignOfferAddedInBetween()
    ensures ForeignTimeline([Record(9 * Second, Second), Record(19 * Second, Second)], 15 * Second, 3 * Second)
            == [Record(9 * Second, Second), Record(12 * Second, 3 * Second), Record(19 * Second, Second)]
  {
    var ts := [Record(9 * Second, Second), Record(19 * Second, Second)];
    assert SplitAt(ts, 15 * Second) == ([Record(9 * Second, Second)], [Record(19 * Second, Second)]) by {
      SplitAtCases(ts, 15 * Second);
      assert ts[1..] == [Record(19 * Second, Second)];
      SplitAtCases(ts[1..], 15 * Second);
      assert SplitAt(ts[1..], 15 * Second) == ([], ts[1..]);
      assert [ts[0]] + [] == [Record(9 * Second, Second)];
    }
    assert Reversed([Record(9 * Second, Second)]) == [Record(10 * Second, -Second)];
    assert Transmissions([Record(10 * Second, -Second)], 15 * Second, -3 * Second)
           == [Record(15 * Second, -3 * Second), Record(10 * Second, -Second)];
    assert Reversed([Record(15 * Second, -3 * Second), Record(10 * Second, -Second)])
           == [Record(9 * Second, Second), Record(12 * Second, 3 * Second)];
  }

  /** 100 s later every earlier reservation has expired: each channel keeps
      only the new transmission. */
  lemma {:induction false} OldTransmissionsAreCleanedUp(a: object, b: object)
    requires a != b
    ensures Exchange(a, [Record(0, 10 * Second)], At10, b, [Record(9 * Second, Second)], At100, 100, 100 * Second)
            == Exchanged(110 * Second, [Record(100 * Second, 10 * Second)], [Record(109 * Second, Second)])
  {
    assert DropExpired([Record(0, 10 * Second)], 100 * Second) == [];
    assert DropExpired([Record(9 * Second, Second)], 100 * Second) == [];
    assert SplitAt([], 100 * Second) == ([], []);
    assert SplitAt([], 110 * Second) == ([], []);
    assert Transmissions([], 110 * Second, -Second) == [Record(110 * Second, -Second)];
  }
}

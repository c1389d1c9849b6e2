/** The two-party negotiation of a transmission: both ends of a request are
    asked for an offer, the offer that finishes later wins, and both ends
    commit it. */
module Negotiation {
  import opened TransmissionRecords
  import opened TransmissionScheduling
  import opened TransmissionStreams

  datatype Option<T> = None | Some(value: T)

  /** One end of a transmission: a channel of either revision, or the
      stand-in with a fixed receive time. */
  datatype Endpoint = Stream(channel: Channel) | Legacy(legacy: LegacyChannel) | Fixed(fixed: FixedChannel)
  {
    /** The object that issues this end's offers. */
    function Issuer(): object
    {
      match this
      case Stream(c) => c
      case Legacy(c) => c
      case Fixed(f) => f
    }

    function Objects(): set<object>
    {
      {Issuer()}
    }

    /** The objects this end changes: the stand-in changes nothing. */
    function Footprint(): set<object>
    {
      if HasTimeline() then {Issuer()} else {}
    }

    function TimePerUnit(): nat
    {
      match this
      case Stream(c) => c.timePerUnit
      case Legacy(c) => c.timePerUnit
      case Fixed(_) => 0
    }

    /** Whether this end keeps a timeline of its own. */
    predicate HasTimeline()
    {
      !Fixed?
    }

    function Timeline(): seq<Record>
      reads Objects()
    {
      match this
      case Stream(c) => c.timeline
      case Legacy(c) => c.timeline
      case Fixed(_) => []
    }

    predicate Online()
      reads Objects()
    {
      match this
      case Stream(c) => c.isOnline
      case Legacy(_) => true
      case Fixed(_) => true
    }

    /** The offer this end makes for a message of `size` at `now`, in the
        current state. */
    function Requested(size: nat, now: int): (r: Result<Offer>)
      reads Objects()
      ensures r.Failure? <==> !Online()
      ensures r.Success? ==> r.value.issuer == Issuer() && r.value.size == size
      ensures r.Success? && HasTimeline() ==>
                r.value == CreateOffer(Issuer(), DropExpired(Timeline(), now), now, size, size * TimePerUnit())
      ensures r.Success? && Fixed? ==> r.value == Offer(fixed, fixed.receiveTime, size, NoPayload)
    {
      match this
      case Stream(c) =>
        if c.isOnline then Success(CreateOffer(c, DropExpired(c.timeline, now), now, size, size * c.timePerUnit))
        else Failure(StreamOffline)
      case Legacy(c) => Success(CreateOffer(c, DropExpired(c.timeline, now), now, size, size * c.timePerUnit))
      case Fixed(f) => Success(Offer(f, f.receiveTime, size, NoPayload))
    }
  }

  /** Ask one end for an offer. */
  method RequestOn(e: Endpoint, size: nat, now: int) returns (r: Result<Offer>)
    modifies e.Footprint()
    ensures r == old(e.Requested(size, now))
    ensures e.Online() == old(e.Online())
    ensures e.Timeline() == if r.Success? then DropExpired(old(e.Timeline()), now) else old(e.Timeline())
  {
    match e
    case Stream(c) =>
      r := c.RequestTransmission(size, now);
    case Legacy(c) =>
      var offer := c.RequestTransmission(size, now);
      r := Success(offer);
    case Fixed(f) =>
      var offer := f.RequestTransmission(size);
      r := Success(offer);
  }

  /** Tell one end which offer was accepted. */
  method AcceptOn(e: Endpoint, offer: Offer) returns (r: Result<()>)
    modifies e.Footprint()
    ensures e.Online() == old(e.Online())
    ensures !e.Online() ==> r == Failure(StreamOffline) && e.Timeline() == old(e.Timeline())
    ensures e.Online() && e.HasTimeline() ==>
              var a := Accepted(old(e.Timeline()), e.Issuer(), e.TimePerUnit(), offer);
              (a.Success? ==> r == Success(()) && e.Timeline() == a.value)
              && (a.Failure? ==> r == Failure(a.fault) && e.Timeline() == old(e.Timeline()))
    ensures e.Fixed? ==> r == Success(())
  {
    match e
    case Stream(c) =>
      r := c.Accept(offer);
    case Legacy(c) =>
      r := c.Accept(offer);
    case Fixed(f) =>
      r := f.Accept(offer);
  }

  /** A request to transmit a message of `size` units from a sender; the
      receiver is set afterwards. */
  class TransmitRequest {
    const size: nat
    const sender: Endpoint
    var receiverSlot: Option<Endpoint>

    constructor(size: nat, sender: Endpoint)
      ensures this.size == size && this.sender == sender && receiverSlot == None
    {
      this.size := size;
      this.sender := sender;
      receiverSlot := None;
    }

    /** Set the receiver; the request itself is returned for chaining. */
    method To(receiver: Endpoint) returns (r: TransmitRequest)
      modifies this
      ensures receiverSlot == Some(receiver) && r == this
    {
      receiverSlot := Some(receiver);
      r := this;
    }

    /** The receiver, or a fault when none was set. */
    function Receiver(): (r: Result<Endpoint>)
      reads this
      ensures r.Success? <==> receiverSlot.Some?
      ensures r.Success? ==> r.value == receiverSlot.value
      ensures r.Failure? ==> r.fault == ReceiverNotSet
    {
      match receiverSlot
      case Some(receiver) => Success(receiver)
      case None => Failure(ReceiverNotSet)
    }
  }

  /** The winning offer: the one that finishes later, the sender's on a tie. */
  function Choose(sendOffer: Offer, receiveOffer: Offer): (r: Offer)
    ensures r == sendOffer || r == receiveOffer
    ensures sendOffer.finishTime <= r.finishTime && receiveOffer.finishTime <= r.finishTime
    ensures sendOffer.finishTime == receiveOffer.finishTime ==> r == sendOffer
  {
    if sendOffer.finishTime < receiveOffer.finishTime then receiveOffer else sendOffer
  }

  /** Committing a negotiated offer on an ordered timeline: whether the
      offer is this end's own candidate or a foreign one of the same size,
      the committed timeline is ordered, keeps every reservation from `now`
      on, and reserves the message's duration right before the finish time.
      An own candidate is placed on the whole purged timeline, so this holds
      for it only when no kept reservation began before `now`. */
  lemma {:induction false} CommitReservesBeforeFinish(ts: seq<Record>, self: object, timePerUnit: nat, now: int, chosen: Offer)
    requires Ordered(ts)
    requires chosen.issuer == self ==>
               chosen == CreateOffer(self, DropExpired(ts, now), now, chosen.size, chosen.size * timePerUnit)
               && NoneBegunBefore(DropExpired(ts, now), now)
    ensures CommitsBeforeFinish(ts, self, timePerUnit, now, chosen)
  {
    var purged := DropExpired(ts, now);
    var d := chosen.size * timePerUnit;
    DropExpiredKeepsFuture(ts, now);
    if chosen.issuer == self {
      OfferReservesFromNow(self, purged, now, chosen.size, d);
    } else {
      TimeReversal.ForeignReservation(purged, chosen.finishTime, d);
    }
  }

  /** Accepting `chosen` at `now` on the purged `ts` succeeds with an
      ordered timeline that keeps every reservation of `ts` from `now` on
      and is busy for the message's duration right before the finish time. */
  ghost predicate CommitsBeforeFinish(ts: seq<Record>, self: object, timePerUnit: nat, now: int, chosen: Offer)
  {
    var c := Accepted(DropExpired(ts, now), self, timePerUnit, chosen);
    c.Success? && Ordered(c.value)
    && (forall x :: now <= x && Busy(ts, x) ==> Busy(c.value, x))
    && (forall x :: chosen.finishTime - chosen.size * timePerUnit <= x < chosen.finishTime ==> Busy(c.value, x))
  }

  /** An online end asked again at the same instant, after it purged,
      makes the offer it made before. */
  lemma {:induction false} RequestedFromPurged(e: Endpoint, before: seq<Record>, size: nat, now: int)
    requires e.Online() && e.Timeline() == DropExpired(before, now)
    ensures e.HasTimeline() ==>
              e.Requested(size, now) == Success(CreateOffer(e.Issuer(), DropExpired(before, now), now, size, size * e.TimePerUnit()))
  {
    DropExpiredIdempotent(before, now);
  }

  /** Two ends with the same issuer are the same end: classes of different
      kinds never share an object. */
  lemma {:induction false} SameIssuerSameEndpoint(a: Endpoint, b: Endpoint)
    requires a.Issuer() == b.Issuer()
    ensures a == b
  {
  }

  /** The objects a negotiation may change: those of the sender and, once
      set, of the receiver. */
  function Parties(sender: Endpoint, receiverSlot: Option<Endpoint>): set<object>
  {
    sender.Footprint() + if receiverSlot.Some? then receiverSlot.value.Footprint() else {}
  }

  /** The outcome of the negotiation in the current state: the sender's
      offer first, then the receiver, then the receiver's offer; any refusal
      is the outcome, otherwise the offer that finishes later. */
  function Negotiated(sender: Endpoint, receiverSlot: Option<Endpoint>, size: nat, now: int): (r: Result<Offer>)
    reads sender.Objects(), if receiverSlot.Some? then receiverSlot.value.Objects() else {}
    ensures !sender.Online() ==> r == Failure(StreamOffline)
    ensures sender.Online() && receiverSlot.None? ==> r == Failure(ReceiverNotSet)
    ensures sender.Online() && receiverSlot.Some? && !receiverSlot.value.Online() ==> r == Failure(StreamOffline)
    ensures r.Success? <==> sender.Online() && receiverSlot.Some? && receiverSlot.value.Online()
    ensures r.Success? ==>
              r.value == Choose(sender.Requested(size, now).value, receiverSlot.value.Requested(size, now).value)
  {
    match sender.Requested(size, now)
    case Failure(fault) => Failure(fault)
    case Success(sendOffer) =>
      match receiverSlot
      case None => Failure(ReceiverNotSet)
      case Some(receiver) =>
        match receiver.Requested(size, now)
        case Failure(fault) => Failure(fault)
        case Success(receiveOffer) => Success(Choose(sendOffer, receiveOffer))
  }

  /** The negotiated offer is one of the two ends' offers; when an end with
      a timeline issued it, it is that end's offer made from its purged
      timeline. */
  lemma {:induction false} NegotiatedOfferIssuedByAnEnd(sender: Endpoint, receiverSlot: Option<Endpoint>, size: nat, now: int, e: Endpoint)
    requires Negotiated(sender, receiverSlot, size, now).Success?
    requires e == sender || receiverSlot == Some(e)
    requires e.HasTimeline() && Negotiated(sender, receiverSlot, size, now).value.issuer == e.Issuer()
    ensures Negotiated(sender, receiverSlot, size, now).value
            == CreateOffer(e.Issuer(), DropExpired(e.Timeline(), now), now, size, size * e.TimePerUnit())
  {
    var o := Negotiated(sender, receiverSlot, size, now).value;
    if o == sender.Requested(size, now).value {
      SameIssuerSameEndpoint(e, sender);
    } else {
      SameIssuerSameEndpoint(e, receiverSlot.value);
    }
  }

  /** The negotiated offer comes from one of the two ends, and when an end
      with a timeline issued it, it carries a candidate timeline. */
  lemma {:induction false} NegotiatedCandidate(sender: Endpoint, receiverSlot: Option<Endpoint>, size: nat, now: int)
    ensures var o := Negotiated(sender, receiverSlot, size, now);
            o.Success? ==>
              (o.value.issuer == sender.Issuer() || o.value.issuer == receiverSlot.value.Issuer())
              && (sender.HasTimeline() && o.value.issuer == sender.Issuer() ==> o.value.memento.Candidate?)
              && (receiverSlot.value.HasTimeline() && o.value.issuer == receiverSlot.value.Issuer()
                  ==> o.value.memento.Candidate?)
  {
    var o := Negotiated(sender, receiverSlot, size, now);
    if o.Success? {
      var receiver := receiverSlot.value;
      var sendOffer := sender.Requested(size, now).value;
      var receiveOffer := receiver.Requested(size, now).value;
      assert o.value == sendOffer || o.value == receiveOffer;
      if sender.Issuer() == receiver.Issuer() {
        SameIssuerSameEndpoint(sender, receiver);
      }
    }
  }

  /** What a successful negotiation commits on each end with an ordered
      timeline: the finish time leaves room for the message at this end's own
      speed after `now`; the committed timeline is ordered, keeps every
      reservation from `now` on, and reserves the message's duration right
      before the finish time. The commit half needs, when this end issued the
      offer, that none of its kept reservations began before `now`. */
  lemma {:induction false} NegotiationReservesBothEnds(sender: Endpoint, receiverSlot: Option<Endpoint>, size: nat, now: int, e: Endpoint)
    requires Negotiated(sender, receiverSlot, size, now).Success?
    requires e == sender || receiverSlot == Some(e)
    requires e.HasTimeline() && Ordered(e.Timeline())
    requires Negotiated(sender, receiverSlot, size, now).value.issuer == e.Issuer() ==>
               NoneBegunBefore(DropExpired(e.Timeline(), now), now)
    ensures now + size * e.TimePerUnit() <= Negotiated(sender, receiverSlot, size, now).value.finishTime
    ensures Negotiated(sender, receiverSlot, size, now).value.size == size
    ensures CommitsBeforeFinish(e.Timeline(), e.Issuer(), e.TimePerUnit(), now, Negotiated(sender, receiverSlot, size, now).value)
  {
    NegotiatedCommit(sender, receiverSlot, size, now, e);
    NegotiatedFinishLeavesRoom(sender, receiverSlot, size, now, e);
  }

  /** The commit half of the lemma above. */
  lemma {:induction false} NegotiatedCommit(sender: Endpoint, receiverSlot: Option<Endpoint>, size: nat, now: int, e: Endpoint)
    requires Negotiated(sender, receiverSlot, size, now).Success?
    requires e == sender || receiverSlot == Some(e)
    requires e.HasTimeline() && Ordered(e.Timeline())
    requires Negotiated(sender, receiverSlot, size, now).value.issuer == e.Issuer() ==>
               NoneBegunBefore(DropExpired(e.Timeline(), now), now)
    ensures Negotiated(sender, receiverSlot, size, now).value.size == size
    ensures CommitsBeforeFinish(e.Timeline(), e.Issuer(), e.TimePerUnit(), now, Negotiated(sender, receiverSlot, size, now).value)
  {
    var o := Negotiated(sender, receiverSlot, size, now).value;
    if o.issuer == e.Issuer() {
      NegotiatedOfferIssuedByAnEnd(sender, receiverSlot, size, now, e);
    }
    CommitReservesBeforeFinish(e.Timeline(), e.Issuer(), e.TimePerUnit(), now, o);
  }

  /** The negotiated finish time is no earlier than either end's own offer,
      so it leaves room for the message at each end's speed after `now`. */
  lemma {:induction false} NegotiatedFinishLeavesRoom(sender: Endpoint, receiverSlot: Option<Endpoint>, size: nat, now: int, e: Endpoint)
    requires Negotiated(sender, receiverSlot, size, now).Success?
    requires e == sender || receiverSlot == Some(e)
    requires e.HasTimeline() && Ordered(e.Timeline())
    ensures now + size * e.TimePerUnit() <= Negotiated(sender, receiverSlot, size, now).value.finishTime
  {
    RequestedLeavesRoom(e, size, now);
    assert e.Requested(size, now).value.finishTime <= Negotiated(sender, receiverSlot, size, now).value.finishTime;
  }

  /** An online end's own offer leaves room for the message at its speed
      after `now`. */
  lemma {:induction false} RequestedLeavesRoom(e: Endpoint, size: nat, now: int)
    requires e.Online() && e.HasTimeline() && Ordered(e.Timeline())
    ensures now + size * e.TimePerUnit() <= e.Requested(size, now).value.finishTime
  {
    DropExpiredKeepsFuture(e.Timeline(), now);
    var d: nat := size * e.TimePerUnit();
    OfferLeavesRoom(e.Issuer(), DropExpired(e.Timeline(), now), now, size, d);
  }

  /** Ask both ends for an offer and pick the one that finishes later.
      Every end that was asked and made an offer has purged its expired
      reservations; nothing else changes. */
  method Negotiate(sender: Endpoint, receiverSlot: Option<Endpoint>, size: nat, now: int) returns (r: Result<Offer>)
    modifies Parties(sender, receiverSlot)
    ensures r == old(Negotiated(sender, receiverSlot, size, now))
    ensures sender.Online() == old(sender.Online())
    ensures sender.Timeline() == if old(sender.Online()) then DropExpired(old(sender.Timeline()), now) else old(sender.Timeline())
    ensures receiverSlot.Some? ==>
              var receiver := receiverSlot.value;
              receiver.Online() == old(receiver.Online())
              && receiver.Timeline()
                 == if old(sender.Online() && receiver.Online()) then DropExpired(old(receiver.Timeline()), now)
                    else old(receiver.Timeline())
  {
    ghost var outcome := Negotiated(sender, receiverSlot, size, now);
    ghost var sendBefore := sender.Timeline();
    ghost var sendOnline := sender.Online();
    if receiverSlot.Some? && receiverSlot.value.Issuer() == sender.Issuer() {
      SameIssuerSameEndpoint(receiverSlot.value, sender);
    }
    ghost var receiveRequested := if receiverSlot.Some? then receiverSlot.value.Requested(size, now) else Failure(ReceiverNotSet);
    ghost var receiveBefore := if receiverSlot.Some? then receiverSlot.value.Timeline() else [];
    var sendOffer := RequestOn(sender, size, now);
    if sendOffer.Failure? {
      return Failure(sendOffer.fault);
    }
    if receiverSlot.None? {
      return Failure(ReceiverNotSet);
    }
    var receiver := receiverSlot.value;
    ghost var sendAfter := sender.Timeline();
    assert sendAfter == DropExpired(sendBefore, now);
    if receiver == sender {
      DropExpiredIdempotent(sendBefore, now);
      RequestedFromPurged(receiver, sendBefore, size, now);
    } else {
      assert receiver.Timeline() == receiveBefore;
      assert receiver.Requested(size, now) == receiveRequested;
    }
    var receiveOffer := RequestOn(receiver, size, now);
    if receiveOffer.Failure? {
      return Failure(receiveOffer.fault);
    }
    if receiver == sender {
      assert receiver.Timeline() == DropExpired(receiveBefore, now);
    } else {
      assert sender.Timeline() == sendAfter;
      assert receiver.Timeline() == DropExpired(receiveBefore, now);
    }
    r := Success(Choose(sendOffer.value, receiveOffer.value));
    assert r == outcome;
  }

  /** A request is not one of the ends it connects, so negotiating leaves
      the request as it was. */
  lemma {:induction false} RequestIsNoParty(request: TransmitRequest)
    ensures request !in Parties(request.sender, request.receiverSlot)
  {
  }

  /** Both ends commit the chosen offer, the sender first. Neither refuses:
      both are online, and an end that issued the offer finds its candidate
      in it. */
  method Commit(sender: Endpoint, receiver: Endpoint, chosen: Offer)
    requires sender.Online() && receiver.Online()
    requires chosen.issuer == sender.Issuer() || chosen.issuer == receiver.Issuer()
    requires sender.HasTimeline() && chosen.issuer == sender.Issuer() ==> chosen.memento.Candidate?
    requires receiver.HasTimeline() && chosen.issuer == receiver.Issuer() ==> chosen.memento.Candidate?
    modifies sender.Footprint(), receiver.Footprint()
    ensures sender.Online() && receiver.Online()
    ensures sender.HasTimeline() ==>
              sender.Timeline() == Accepted(old(sender.Timeline()), sender.Issuer(), sender.TimePerUnit(), chosen).value
    ensures receiver.HasTimeline() ==>
              receiver.Timeline() == Accepted(old(receiver.Timeline()), receiver.Issuer(), receiver.TimePerUnit(), chosen).value
  {
    ghost var receiveBefore := receiver.Timeline();
    var accepted := AcceptOn(sender, chosen);
    assert accepted.Success?;
    if receiver.Issuer() == sender.Issuer() {
      SameIssuerSameEndpoint(receiver, sender);
    } else {
      assert receiver.Timeline() == receiveBefore;
    }
    accepted := AcceptOn(receiver, chosen);
    assert accepted.Success?;
  }

  /** Negotiate and commit a transmission of the request at `now`. The
      sender is asked first; a missing receiver is noticed only after that,
      and any refusal is the outcome, with the ends that were asked purged.
      Otherwise both ends commit the offer that finishes later, which cannot
      be refused, and its finish time is returned. */
  method ScheduleTransmission(request: TransmitRequest, now: int) returns (r: Result<int>)
    modifies Parties(request.sender, request.receiverSlot)
    ensures var outcome := old(Negotiated(request.sender, request.receiverSlot, request.size, now));
            outcome.Failure? ==>
              r == Failure(outcome.fault)
              && request.sender.Timeline()
                 == if old(request.sender.Online()) then DropExpired(old(request.sender.Timeline()), now)
                    else old(request.sender.Timeline())
    ensures var outcome := old(Negotiated(request.sender, request.receiverSlot, request.size, now));
            outcome.Failure? && request.receiverSlot.Some? ==>
              var receiver := request.receiverSlot.value;
              receiver.Timeline()
              == if old(request.sender.Online() && receiver.Online()) then DropExpired(old(receiver.Timeline()), now)
                 else old(receiver.Timeline())
    ensures var outcome := old(Negotiated(request.sender, request.receiverSlot, request.size, now));
            outcome.Success? ==>
              var sender := request.sender;
              var receiver := request.receiverSlot.value;
              r == Success(outcome.value.finishTime)
              && (sender.HasTimeline() ==>
                    sender.Timeline()
                    == Accepted(DropExpired(old(sender.Timeline()), now), sender.Issuer(), sender.TimePerUnit(), outcome.value).value)
              && (receiver.HasTimeline() ==>
                    receiver.Timeline()
                    == Accepted(DropExpired(old(receiver.Timeline()), now), receiver.Issuer(), receiver.TimePerUnit(), outcome.value).value)
  {
    var sender := request.sender;
    var receiverSlot := request.receiverSlot;
    var size := request.size;
    RequestIsNoParty(request);
    ghost var outcome := Negotiated(sender, receiverSlot, size, now);
    NegotiatedCandidate(sender, receiverSlot, size, now);
    ghost var sendBefore := sender.Timeline();
    ghost var receiveBefore := if receiverSlot.Some? then receiverSlot.value.Timeline() else [];
    var offer := Negotiate(sender, receiverSlot, size, now);
    if offer.Failure? {
      return Failure(offer.fault);
    }
    var receiver := receiverSlot.value;
    assert sender.Timeline() == DropExpired(sendBefore, now);
    assert receiver.Timeline() == DropExpired(receiveBefore, now);
    Commit(sender, receiver, offer.value);
    assert request.receiverSlot == Some(receiver);
    assert receiver.HasTimeline() ==>
             receiver.Timeline() == Accepted(DropExpired(receiveBefore, now), receiver.Issuer(), receiver.TimePerUnit(), outcome.value).value;
    r := Success(offer.value.finishTime);
  }
}

/** Time reversal of timelines and the reconciliation of a foreign offer: a
    reservation of a given duration that must end exactly at the offer's
    finish time is placed backwards from that instant, so it takes the latest
    free time before the finish. */
module TimeReversal {
  import opened TransmissionRecords
  import opened TransmissionScheduling

  /** A record seen backwards: it starts where it ended and runs for the
      negated duration, so it ends where it started. */
  function ReversedRecord(r: Record): (q: Record)
    ensures q.EndTime() == r.startTime && q.startTime == r.EndTime()
  {
    Record(r.startTime + r.duration, -r.duration)
  }

  /** A timeline seen backwards: the records in reverse order, each reversed. */
  function Reversed(ts: seq<Record>): (r: seq<Record>)
    ensures |r| == |ts|
  {
    if ts == [] then [] else Reversed(ts[1..]) + [ReversedRecord(ts[0])]
  }

  /** Position `i` of the reversed timeline holds the reversed record from
      the mirrored position. */
  lemma {:induction false} ReversedAt(ts: seq<Record>)
    ensures forall i :: 0 <= i < |ts| ==> Reversed(ts)[i] == ReversedRecord(ts[|ts| - 1 - i])
    decreases |ts|
  {
    if ts != [] {
      ReversedAt(ts[1..]);
      var r := Reversed(ts);
      forall i | 0 <= i < |ts| ensures r[i] == ReversedRecord(ts[|ts| - 1 - i]) {
        if i < |ts| - 1 {
          assert r[i] == Reversed(ts[1..])[i];
          assert ts[1..][|ts| - 2 - i] == ts[|ts| - 1 - i];
        }
      }
    }
  }

  /** Reversing twice gives back the timeline. */
  lemma {:induction false} ReversedTwice(ts: seq<Record>)
    ensures Reversed(Reversed(ts)) == ts
  {
    ReversedAt(ts);
    ReversedAt(Reversed(ts));
  }

  /** Reversal negates the total reserved time. */
  lemma {:induction false} ReversedTotal(ts: seq<Record>)
    ensures Total(Reversed(ts)) == -Total(ts)
    decreases |ts|
  {
    if ts != [] {
      ReversedTotal(ts[1..]);
      TotalAppend(Reversed(ts[1..]), [ReversedRecord(ts[0])]);
    }
  }

  // ---------------------------------------------------------------------
  // Mirror image: reversal followed by negation
  // ---------------------------------------------------------------------

  /** The timeline reflected at instant 0: reversed and negated, so every
      duration is back to its original sign. */
  function Mirror(ts: seq<Record>): (r: seq<Record>)
    ensures |r| == |ts|
  {
    Negated(Reversed(ts))
  }

  lemma {:induction false} NegatedAt(ts: seq<Record>)
    ensures forall i :: 0 <= i < |ts| ==> Negated(ts)[i] == Record(-ts[i].startTime, -ts[i].duration)
  {
  }

  /** Position `i` of the mirror image is the reflected record from the
      mirrored position: it starts where that one ended, negated. */
  lemma {:induction false} MirrorAt(ts: seq<Record>)
    ensures forall i :: 0 <= i < |ts| ==>
      Mirror(ts)[i] == Record(-ts[|ts| - 1 - i].EndTime(), ts[|ts| - 1 - i].duration)
  {
    ReversedAt(ts);
  }

  lemma {:induction false} NegatedTwice(ts: seq<Record>)
    ensures Negated(Negated(ts)) == ts
  {
  }

  /** Reversal and negation commute. */
  lemma {:induction false} ReversedNegatedCommute(ts: seq<Record>)
    ensures Reversed(Negated(ts)) == Mirror(ts)
  {
    ReversedAt(ts);
    ReversedAt(Negated(ts));
  }

  /** The mirror image of an ordered timeline is ordered. */
  lemma {:induction false} MirrorOrdered(ts: seq<Record>)
    requires Ordered(ts)
    ensures Ordered(Mirror(ts))
  {
    MirrorAt(ts);
    var m := Mirror(ts);
    var n := |ts|;
    forall i, j | 0 <= i < j < n ensures m[i].EndTime() <= m[j].startTime {
      assert ts[n - 1 - j].EndTime() <= ts[n - 1 - i].startTime;
    }
  }

  /** An instant is covered in the mirror image exactly when its reflection
      (one tick earlier, as intervals are half-open) is covered. */
  lemma {:induction false} MirrorBusy(ts: seq<Record>, y: int)
    ensures Busy(Mirror(ts), y) <==> Busy(ts, -1 - y)
  {
    MirrorAt(ts);
    var m := Mirror(ts);
    var n := |ts|;
    if Busy(ts, -1 - y) {
      var j :| 0 <= j < n && ts[j].startTime <= -1 - y < ts[j].EndTime();
      assert m[n - 1 - j].startTime <= y < m[n - 1 - j].EndTime();
    }
    if Busy(m, y) {
      var i :| 0 <= i < n && m[i].startTime <= y < m[i].EndTime();
      assert ts[n - 1 - i].startTime <= -1 - y < ts[n - 1 - i].EndTime();
    }
  }

  /** Negation negates the total reserved time. */
  lemma {:induction false} NegatedTotal(ts: seq<Record>)
    ensures Total(Negated(ts)) == -Total(ts)
    decreases |ts|
  {
    if ts != [] {
      NegatedTotal(ts[1..]);
      NegatedFirst(ts, 0);
      assert Negated(ts) == [Negated(ts)[0]] + Negated(ts)[1..];
    }
  }

  /** The mirror image keeps the total reserved time. */
  lemma {:induction false} MirrorTotal(ts: seq<Record>)
    ensures Total(Mirror(ts)) == Total(ts)
  {
    ReversedTotal(ts);
    NegatedTotal(Reversed(ts));
  }

  // ---------------------------------------------------------------------
  // Reconciling a foreign offer
  // ---------------------------------------------------------------------

  /** The part of the timeline before the finish time with the foreign
      reservation placed into it backwards from the finish time: reverse,
      place with negated duration, reverse back. */
  function ForeignPlacement(before: seq<Record>, finishTime: int, duration: int): (r: seq<Record>)
    ensures |r| >= 1
  {
    Reversed(Transmissions(Reversed(before), finishTime, -duration))
  }

  /** The timeline after accepting a foreign offer: the placement into the
      part before the finish time, joined with the part after it. */
  function ForeignTimeline(ts: seq<Record>, finishTime: int, duration: int): seq<Record>
  {
    var split := SplitAt(ts, finishTime);
    MergeWith(ForeignPlacement(split.0, finishTime, duration), split.1)
  }

  /** Where the foreign reservation begins: the end of the head of the
      backwards placement. */
  function ForeignStart(before: seq<Record>, finishTime: int, duration: int): int
  {
    Transmissions(Reversed(before), finishTime, -duration)[0].EndTime()
  }

  /** Backwards placement is forward placement in the mirror image. */
  lemma {:induction false} ForeignPlacementMirrors(before: seq<Record>, finishTime: int, duration: int)
    ensures ForeignPlacement(before, finishTime, duration)
            == Mirror(Transmissions(Mirror(before), -finishTime, duration))
    ensures Transmissions(Reversed(before), finishTime, -duration)
            == Negated(Transmissions(Mirror(before), -finishTime, duration))
  {
    var q := Transmissions(Mirror(before), -finishTime, duration);
    NegatedTwice(Reversed(before));
    assert Negated(Mirror(before)) == Reversed(before);
    ScheduleNegated(Mirror(before), -finishTime, duration);
    assert -(-finishTime) == finishTime;
    ReversedNegatedCommute(q);
  }

  /** The forward placement in the mirror image of an ordered timeline that
      ends by the finish time. */
  lemma {:induction false} MirrorPlacedForward(before: seq<Record>, finishTime: int, duration: int)
    requires Ordered(before) && duration >= 0
    requires before != [] ==> before[|before| - 1].EndTime() <= finishTime
    ensures PlacedForward(Mirror(before), -finishTime, duration, Transmissions(Mirror(before), -finishTime, duration))
  {
    assert Ordered(Mirror(before)) by {
      MirrorOrdered(before);
    }
    assert Mirror(before) != [] ==> -finishTime <= Mirror(before)[0].startTime by {
      MirrorAt(before);
    }
    ScheduleForward(Mirror(before), -finishTime, duration);
  }

  /** Placing a foreign reservation into the part of an ordered timeline
      that ends by the finish time: the result is ordered, ends exactly at
      the finish time, and covers the old instants plus the interval from
      the reservation's start to the finish time. */
  lemma {:induction false} ForeignPlacementOrdered(before: seq<Record>, finishTime: int, duration: int)
    requires Ordered(before) && duration >= 0
    requires before != [] ==> before[|before| - 1].EndTime() <= finishTime
    ensures var placed := ForeignPlacement(before, finishTime, duration);
            Ordered(placed) && placed[|placed| - 1].EndTime() == finishTime
            && ForeignStart(before, finishTime, duration) <= finishTime - duration
  {
    var q := Transmissions(Mirror(before), -finishTime, duration);
    var placed := ForeignPlacement(before, finishTime, duration);
    MirrorPlacedForward(before, finishTime, duration);
    ForeignPlacementMirrors(before, finishTime, duration);
    MirrorOrdered(q);
    MirrorAt(q);
    NegatedFirst(q, 0);
    assert placed[|placed| - 1].EndTime() == finishTime;
  }

  /** The instants the placement covers. */
  lemma {:induction false} ForeignPlacementBusy(before: seq<Record>, finishTime: int, duration: int)
    requires Ordered(before) && duration >= 0
    requires before != [] ==> before[|before| - 1].EndTime() <= finishTime
    ensures forall x :: Busy(ForeignPlacement(before, finishTime, duration), x)
                        <==> Busy(before, x) || ForeignStart(before, finishTime, duration) <= x < finishTime
  {
    var q := Transmissions(Mirror(before), -finishTime, duration);
    var placed := ForeignPlacement(before, finishTime, duration);
    MirrorPlacedForward(before, finishTime, duration);
    ForeignPlacementMirrors(before, finishTime, duration);
    NegatedFirst(q, 0);
    assert ForeignStart(before, finishTime, duration) == -q[0].EndTime();
    forall x ensures Busy(placed, x) <==> Busy(before, x) || -q[0].EndTime() <= x < finishTime {
      MirrorBusy(q, x);
      MirrorBusy(before, -1 - x);
    }
  }

  /** The placement adds exactly the reserved duration. */
  lemma {:induction false} ForeignPlacementTotal(before: seq<Record>, finishTime: int, duration: int)
    ensures Total(ForeignPlacement(before, finishTime, duration)) == Total(before) + duration
  {
    var q := Transmissions(Mirror(before), -finishTime, duration);
    ForeignPlacementMirrors(before, finishTime, duration);
    ScheduleTotal(Mirror(before), -finishTime, duration);
    MirrorTotal(q);
    MirrorTotal(before);
  }

  /** On an ordered timeline, accepting a foreign offer of a non-negative
      duration keeps the timeline ordered, adds exactly that duration of
      reserved time, and reserves the free instants of an interval that
      ends at the finish time and is at least the duration long: every
      reservation stays where it was. */
  lemma {:induction false} ForeignReservation(ts: seq<Record>, finishTime: int, duration: int)
    requires Ordered(ts) && duration >= 0
    ensures Ordered(ForeignTimeline(ts, finishTime, duration))
    ensures Total(ForeignTimeline(ts, finishTime, duration)) == Total(ts) + duration
    ensures ForeignStart(SplitAt(ts, finishTime).0, finishTime, duration) <= finishTime - duration
    ensures forall x :: Busy(ForeignTimeline(ts, finishTime, duration), x)
                        <==> Busy(ts, x) || ForeignStart(SplitAt(ts, finishTime).0, finishTime, duration) <= x < finishTime
  {
    var before := SplitAt(ts, finishTime).0;
    var after := SplitAt(ts, finishTime).1;
    var placed := ForeignPlacement(before, finishTime, duration);
    SplitSeparates(ts, finishTime);
    ForeignPlacementOrdered(before, finishTime, duration);
    ForeignPlacementBusy(before, finishTime, duration);
    ForeignPlacementTotal(before, finishTime, duration);
    MergeOrdered(placed, after);
  }
}

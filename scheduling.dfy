/** Placement of a new transmission into a channel's timeline. The request
    starts at `startTime` and needs `duration` of channel time; a negative
    duration places it backwards in time (used on time-reversed timelines). */
module TransmissionScheduling {
  import opened TransmissionRecords

  /** The new timeline: the request claims the gap before the first record
      when it fits strictly inside it; otherwise it absorbs the gap and the
      first record and goes on placing the remainder from that record's end.
      The result always has a head record starting at `startTime`; the end of
      that head is the finish time of the request. */
  function Transmissions(ts: seq<Record>, startTime: int, duration: int): (r: seq<Record>)
    ensures 1 <= |r| <= |ts| + 1
    ensures r[0].startTime == startTime
    decreases |ts|
  {
    if ts == [] || Abs(duration) < Abs(FirstGapSize(ts, startTime)) then
      [Record(startTime, duration)] + ts
    else
      var gap := FirstGapSize(ts, startTime);
      var restSchedule := Transmissions(ts[1..], ts[0].EndTime(), duration - gap);
      [Record(startTime, gap + ts[0].duration + restSchedule[0].duration)] + restSchedule[1..]
  }

  /** Time from the cursor to the start of the first record. */
  function FirstGapSize(ts: seq<Record>, startTime: int): int
    requires ts != []
  {
    ts[0].startTime - startTime
  }

  /** Number of records the request absorbed. */
  function Absorbed(ts: seq<Record>, startTime: int, duration: int): (k: nat)
    ensures k <= |ts|
  {
    |ts| + 1 - |Transmissions(ts, startTime, duration)|
  }

  /** The shape of every placement: one head record starting at `startTime`
      followed by the records it did not absorb, unchanged; the head lasts as
      long as the request and the absorbed records together. */
  lemma {:induction false} ScheduleShape(ts: seq<Record>, startTime: int, duration: int)
    ensures Transmissions(ts, startTime, duration)[1..] == ts[Absorbed(ts, startTime, duration)..]
    ensures Transmissions(ts, startTime, duration)[0].duration == duration + Total(ts[..Absorbed(ts, startTime, duration)])
    decreases |ts|
  {
    var r := Transmissions(ts, startTime, duration);
    if ts == [] || Abs(duration) < Abs(FirstGapSize(ts, startTime)) {
      assert r == [Record(startTime, duration)] + ts;
      assert ts[..0] == [];
    } else {
      var gap := FirstGapSize(ts, startTime);
      var rest := Transmissions(ts[1..], ts[0].EndTime(), duration - gap);
      ScheduleShape(ts[1..], ts[0].EndTime(), duration - gap);
      var k := |ts| - |rest|;
      assert r == [Record(startTime, gap + ts[0].duration + rest[0].duration)] + rest[1..];
      assert ts[1..][k..] == ts[k + 1..];
      assert ts[..k + 1] == [ts[0]] + ts[1..][..k];
      assert Total(ts[..k + 1]) == ts[0].duration + Total(ts[1..][..k]) by {
        assert ts[..k + 1][1..] == ts[1..][..k];
      }
    }
  }

  /** The total reserved time grows by exactly the request. */
  lemma {:induction false} ScheduleTotal(ts: seq<Record>, startTime: int, duration: int)
    ensures Total(Transmissions(ts, startTime, duration)) == Total(ts) + duration
  {
    var r := Transmissions(ts, startTime, duration);
    var k := Absorbed(ts, startTime, duration);
    ScheduleShape(ts, startTime, duration);
    TotalSplit(ts, k);
    assert r == [r[0]] + ts[k..];
    TotalAppend([r[0]], ts[k..]);
  }

  /** A request that exactly fills the gap before the first record does not
      end at the start of that record: it is coalesced with it, and the head
      ends where that record ends. */
  lemma {:induction false} ExactFillCoalesces(ts: seq<Record>, startTime: int)
    requires ts != [] && startTime <= ts[0].startTime
    requires |ts| == 1 || ts[0].EndTime() < ts[1].startTime
    ensures Transmissions(ts, startTime, ts[0].startTime - startTime)
            == [Record(startTime, ts[0].EndTime() - startTime)] + ts[1..]
  {
    var rest := Transmissions(ts[1..], ts[0].EndTime(), 0);
    assert rest == [Record(ts[0].EndTime(), 0)] + ts[1..];
  }

  // ---------------------------------------------------------------------
  // Forward placement on an ordered timeline
  // ---------------------------------------------------------------------

  /** What a forward placement from `startTime` promises: the result is
      ordered; the head covers every absorbed record and ends strictly before
      the first record it left in place; the instants covered are exactly
      those covered before plus the head's span. */
  ghost predicate PlacedForward(ts: seq<Record>, startTime: int, duration: int, r: seq<Record>)
    requires 1 <= |r| <= |ts| + 1
  {
    var k := |ts| + 1 - |r|;
    Ordered(r)
    && startTime + duration <= r[0].EndTime()
    && (forall i :: 0 <= i < k ==> startTime <= ts[i].startTime && ts[i].EndTime() <= r[0].EndTime())
    && (k < |ts| ==> r[0].EndTime() < ts[k].startTime)
    && (forall x :: Busy(r, x) <==> Busy(ts, x) || startTime <= x < r[0].EndTime())
  }

  /** A forward request on an ordered timeline that has not started before
      the cursor keeps the timeline ordered and never moves a reservation:
      it only fills free time from the cursor on. */
  lemma {:induction false} ScheduleForward(ts: seq<Record>, startTime: int, duration: int)
    requires Ordered(ts) && duration >= 0
    requires ts != [] ==> startTime <= ts[0].startTime
    ensures PlacedForward(ts, startTime, duration, Transmissions(ts, startTime, duration))
    decreases |ts|
  {
    if ts == [] || Abs(duration) < Abs(FirstGapSize(ts, startTime)) {
      PlacedFirst(ts, startTime, duration);
    } else {
      var gap := FirstGapSize(ts, startTime);
      OrderedRest(ts);
      ScheduleForward(ts[1..], ts[0].EndTime(), duration - gap);
      AbsorbingForward(ts, startTime, duration, Transmissions(ts[1..], ts[0].EndTime(), duration - gap));
    }
  }

  /** The rest of an ordered timeline is ordered and starts no earlier than
      the first record ends. */
  lemma {:induction false} OrderedRest(ts: seq<Record>)
    requires Ordered(ts) && ts != []
    ensures Ordered(ts[1..]) && (ts[1..] != [] ==> ts[0].EndTime() <= ts[1..][0].startTime)
  {
    OrderedTail(ts, 1);
    if |ts| > 1 {
      assert ts[1..][0] == ts[1];
    }
  }

  /** The step of the forward placement: from the placement of the rest to
      the placement of the whole timeline. */
  lemma {:induction false} AbsorbingForward(ts: seq<Record>, startTime: int, duration: int, rest: seq<Record>)
    requires Ordered(ts) && duration >= 0 && ts != [] && startTime <= ts[0].startTime
    requires !(Abs(duration) < Abs(FirstGapSize(ts, startTime)))
    requires rest == Transmissions(ts[1..], ts[0].EndTime(), duration - FirstGapSize(ts, startTime))
    requires PlacedForward(ts[1..], ts[0].EndTime(), duration - FirstGapSize(ts, startTime), rest)
    ensures PlacedForward(ts, startTime, duration, Transmissions(ts, startTime, duration))
  {
    AbsorbingStep(ts, startTime, duration, rest);
    PlacedAbsorbing(ts, startTime, duration, rest);
  }

  /** The base case: the request fits before the first record. */
  lemma {:induction false} PlacedFirst(ts: seq<Record>, startTime: int, duration: int)
    requires Ordered(ts) && duration >= 0
    requires ts != [] ==> startTime <= ts[0].startTime
    requires ts == [] || Abs(duration) < Abs(FirstGapSize(ts, startTime))
    ensures PlacedForward(ts, startTime, duration, Transmissions(ts, startTime, duration))
  {
    var head := Record(startTime, duration);
    var r := [head] + ts;
    assert Transmissions(ts, startTime, duration) == r;
    forall i | 0 <= i < |ts| ensures head.EndTime() <= ts[i].startTime {
      if i > 0 {
        assert ts[0].EndTime() <= ts[i].startTime;
      }
    }
    ConcatOrdered([head], ts);
    forall x ensures Busy(r, x) <==> Busy(ts, x) || startTime <= x < head.EndTime() {
      BusyAppend([head], ts, x);
      BusySingle(head, x);
    }
  }

  /** The step case: the request absorbs the first record and the rest was
      placed from that record's end. */
  lemma {:induction false} PlacedAbsorbing(ts: seq<Record>, startTime: int, duration: int, rest: seq<Record>)
    requires Ordered(ts) && duration >= 0
    requires ts != [] && startTime <= ts[0].startTime
    requires 1 <= |rest| <= |ts| && rest[0].startTime == ts[0].EndTime()
    requires PlacedForward(ts[1..], ts[0].EndTime(), duration - FirstGapSize(ts, startTime), rest)
    ensures PlacedForward(ts, startTime, duration,
                          [Record(startTime, FirstGapSize(ts, startTime) + ts[0].duration + rest[0].duration)] + rest[1..])
  {
    var gap := FirstGapSize(ts, startTime);
    var head := Record(startTime, gap + ts[0].duration + rest[0].duration);
    assert rest[0].duration >= 0;
    AbsorbedOrdered(head, rest);
    AbsorbedBusy(ts, startTime, head, rest);
    AbsorbedRange(ts, startTime, head.EndTime(), |ts| - |rest|);
  }

  /** The records an absorbing head covers: the first one and those the rest
      absorbed after it. */
  lemma {:induction false} AbsorbedRange(ts: seq<Record>, startTime: int, finish: int, k: nat)
    requires Ordered(ts) && ts != [] && startTime <= ts[0].startTime && k < |ts|
    requires ts[0].EndTime() <= finish
    requires forall i :: 0 <= i < k ==> ts[1..][i].EndTime() <= finish
    requires k + 1 < |ts| ==> finish < ts[1..][k].startTime
    ensures forall i :: 0 <= i < k + 1 ==> startTime <= ts[i].startTime && ts[i].EndTime() <= finish
    ensures k + 1 < |ts| ==> finish < ts[k + 1].startTime
  {
    forall i | 0 <= i < k + 1
      ensures startTime <= ts[i].startTime && ts[i].EndTime() <= finish
    {
      if i > 0 {
        assert ts[1..][i - 1] == ts[i];
        assert ts[0].EndTime() <= ts[i].startTime;
      }
    }
    if k + 1 < |ts| {
      assert ts[1..][k] == ts[k + 1];
    }
  }

  /** The head that replaces the first record of an ordered placement and
      ends where it ended keeps the placement ordered. */
  lemma {:induction false} AbsorbedOrdered(head: Record, rest: seq<Record>)
    requires Ordered(rest) && rest != []
    requires head.duration >= 0 && head.EndTime() == rest[0].EndTime()
    ensures Ordered([head] + rest[1..])
  {
    OrderedTail(rest, 1);
    forall j | 0 <= j < |rest[1..]| ensures head.EndTime() <= rest[1..][j].startTime {
      assert rest[1..][j] == rest[j + 1];
    }
    ConcatOrdered([head], rest[1..]);
  }

  /** The instants the absorbing head covers: the gap, the first record and
      the head of the rest. */
  lemma {:induction false} AbsorbedBusy(ts: seq<Record>, startTime: int, head: Record, rest: seq<Record>)
    requires ts != [] && rest != [] && startTime <= ts[0].startTime && ts[0].duration >= 0
    requires head.startTime == startTime && head.EndTime() == rest[0].EndTime()
    requires rest[0].startTime == ts[0].EndTime() && rest[0].duration >= 0
    requires forall x :: Busy(rest, x) <==> Busy(ts[1..], x) || ts[0].EndTime() <= x < rest[0].EndTime()
    ensures forall x :: Busy([head] + rest[1..], x) <==> Busy(ts, x) || startTime <= x < head.EndTime()
  {
    forall x ensures Busy([head] + rest[1..], x) <==> Busy(ts, x) || startTime <= x < head.EndTime() {
      BusyAppend([head], rest[1..], x);
      BusyAppend([rest[0]], rest[1..], x);
      BusyAppend([ts[0]], ts[1..], x);
      BusySingle(head, x);
      BusySingle(rest[0], x);
      BusySingle(ts[0], x);
      assert rest == [rest[0]] + rest[1..];
      assert ts == [ts[0]] + ts[1..];
    }
  }

  // ---------------------------------------------------------------------
  // Symmetry in time
  // ---------------------------------------------------------------------

  /** Every instant and duration negated. */
  function Negated(ts: seq<Record>): (r: seq<Record>)
    ensures |r| == |ts|
  {
    seq(|ts|, i requires 0 <= i < |ts| => Record(-ts[i].startTime, -ts[i].duration))
  }

  /** Placing a request in a negated timeline from a negated cursor is the
      negation of placing it forward: backward placement is forward placement
      seen with time running the other way. */
  lemma {:induction false} ScheduleNegated(ts: seq<Record>, startTime: int, duration: int)
    ensures Transmissions(Negated(ts), -startTime, -duration)
            == Negated(Transmissions(ts, startTime, duration))
  {
    ReflectsNegated(ts);
    PlacementReflects(ts, Negated(ts), startTime, duration);
    ReflectsOnlyNegated(Transmissions(ts, startTime, duration), Transmissions(Negated(ts), -startTime, -duration));
  }

  /** `n` is `ts` with every record negated, stated record by record. */
  ghost predicate Reflects(ts: seq<Record>, n: seq<Record>)
    decreases |ts|
  {
    |n| == |ts|
    && (ts != [] ==> n[0] == Record(-ts[0].startTime, -ts[0].duration) && Reflects(ts[1..], n[1..]))
  }

  lemma {:induction false} ReflectsNegated(ts: seq<Record>)
    ensures Reflects(ts, Negated(ts))
    decreases |ts|
  {
    if ts != [] {
      ReflectsNegated(ts[1..]);
      NegatedFirst(ts, 0);
    }
  }

  lemma {:induction false} ReflectsOnlyNegated(ts: seq<Record>, n: seq<Record>)
    requires Reflects(ts, n)
    ensures n == Negated(ts)
    decreases |ts|
  {
    if ts != [] {
      ReflectsOnlyNegated(ts[1..], n[1..]);
      NegatedCons(ts[0], ts[1..]);
      assert ts == [ts[0]] + ts[1..];
      assert n == [n[0]] + n[1..];
    }
  }

  /** Negating a record in front keeps the relation. */
  lemma {:induction false} ReflectsCons(h: Record, ts: seq<Record>, n: seq<Record>)
    requires Reflects(ts, n)
    ensures Reflects([h] + ts, [Record(-h.startTime, -h.duration)] + n)
  {
    assert ([h] + ts)[1..] == ts;
    assert ([Record(-h.startTime, -h.duration)] + n)[1..] == n;
  }

  /** The symmetry on any pair of timelines related record by record. */
  lemma {:induction false} PlacementReflects(ts: seq<Record>, n: seq<Record>, startTime: int, duration: int)
    requires Reflects(ts, n)
    ensures Reflects(Transmissions(ts, startTime, duration), Transmissions(n, -startTime, -duration))
    decreases |ts|
  {
    if ts == [] || Abs(duration) < Abs(FirstGapSize(ts, startTime)) {
      ReflectsFits(ts, n, startTime, duration);
    } else {
      var gap := FirstGapSize(ts, startTime);
      PlacementReflects(ts[1..], n[1..], ts[0].EndTime(), duration - gap);
      ReflectsAbsorbs(ts, n, startTime, duration,
                      Transmissions(ts[1..], ts[0].EndTime(), duration - gap),
                      Transmissions(n[1..], -ts[0].EndTime(), -(duration - gap)));
    }
  }

  /** The base case of the symmetry: the request fits before the first record. */
  lemma {:induction false} ReflectsFits(ts: seq<Record>, n: seq<Record>, startTime: int, duration: int)
    requires Reflects(ts, n)
    requires ts == [] || Abs(duration) < Abs(FirstGapSize(ts, startTime))
    ensures Reflects(Transmissions(ts, startTime, duration), Transmissions(n, -startTime, -duration))
  {
    if ts != [] {
      assert FirstGapSize(n, -startTime) == -FirstGapSize(ts, startTime);
      AbsNegated(duration);
      AbsNegated(FirstGapSize(ts, startTime));
    }
    assert Transmissions(ts, startTime, duration) == [Record(startTime, duration)] + ts;
    assert Transmissions(n, -startTime, -duration) == [Record(-startTime, -duration)] + n;
    ReflectsCons(Record(startTime, duration), ts, n);
  }

  /** The step case of the symmetry: the request absorbs the first record. */
  lemma {:induction false} ReflectsAbsorbs(ts: seq<Record>, n: seq<Record>, startTime: int, duration: int,
                        rest: seq<Record>, nrest: seq<Record>)
    requires Reflects(ts, n) && ts != [] && !(Abs(duration) < Abs(FirstGapSize(ts, startTime)))
    requires rest == Transmissions(ts[1..], ts[0].EndTime(), duration - FirstGapSize(ts, startTime))
    requires nrest == Transmissions(n[1..], -ts[0].EndTime(), -(duration - FirstGapSize(ts, startTime)))
    requires Reflects(rest, nrest)
    ensures Reflects(Transmissions(ts, startTime, duration), Transmissions(n, -startTime, -duration))
  {
    var h := Record(startTime, FirstGapSize(ts, startTime) + ts[0].duration + rest[0].duration);
    AbsorbingStep(ts, startTime, duration, rest);
    ReflectedStep(ts, n, startTime, duration, rest, nrest);
    ReflectsCons(h, rest[1..], nrest[1..]);
  }

  /** The step case on the negated side. */
  lemma {:induction false} ReflectedStep(ts: seq<Record>, n: seq<Record>, startTime: int, duration: int,
                      rest: seq<Record>, nrest: seq<Record>)
    requires ts != [] && !(Abs(duration) < Abs(FirstGapSize(ts, startTime)))
    requires n != [] && n[0] == Record(-ts[0].startTime, -ts[0].duration)
    requires rest != [] && nrest != [] && nrest[0] == Record(-rest[0].startTime, -rest[0].duration)
    requires nrest == Transmissions(n[1..], -ts[0].EndTime(), -(duration - FirstGapSize(ts, startTime)))
    ensures Transmissions(n, -startTime, -duration)
            == [Record(-startTime, -(FirstGapSize(ts, startTime) + ts[0].duration + rest[0].duration))] + nrest[1..]
  {
    assert FirstGapSize(n, -startTime) == -FirstGapSize(ts, startTime);
    AbsNegated(duration);
    AbsNegated(FirstGapSize(ts, startTime));
    SameArguments(n[1..], -ts[0].EndTime(), -(duration - FirstGapSize(ts, startTime)),
                  n[0].EndTime(), -duration - FirstGapSize(n, -startTime));
    AbsorbingStep(n, -startTime, -duration, nrest);
    assert FirstGapSize(n, -startTime) + n[0].duration + nrest[0].duration
           == -(FirstGapSize(ts, startTime) + ts[0].duration + rest[0].duration);
  }

  lemma {:induction false} SameArguments(ts: seq<Record>, startTime: int, duration: int, startTime': int, duration': int)
    requires startTime == startTime' && duration == duration'
    ensures Transmissions(ts, startTime, duration) == Transmissions(ts, startTime', duration')
  {
  }

  /** Negation works record by record. */
  lemma {:induction false} NegatedCons(h: Record, ts: seq<Record>)
    ensures Negated([h] + ts) == [Record(-h.startTime, -h.duration)] + Negated(ts)
  {
    var a := Negated([h] + ts);
    var b := [Record(-h.startTime, -h.duration)] + Negated(ts);
    forall i | 0 <= i < |a| ensures a[i] == b[i] {
      if i > 0 {
        assert ([h] + ts)[i] == ts[i - 1];
      }
    }
  }

  /** The first record, the rest and the first gap of a negated timeline. */
  lemma {:induction false} NegatedFirst(ts: seq<Record>, startTime: int)
    requires ts != []
    ensures Negated(ts)[0] == Record(-ts[0].startTime, -ts[0].duration)
    ensures Negated(ts)[1..] == Negated(ts[1..])
    ensures FirstGapSize(Negated(ts), -startTime) == -FirstGapSize(ts, startTime)
  {
    NegatedCons(ts[0], ts[1..]);
    assert ts == [ts[0]] + ts[1..];
  }

  lemma {:induction false} AbsNegated(x: int)
    ensures Abs(-x) == Abs(x)
  {
  }

  /** One step of placement when the request does not fit before the first
      record. */
  lemma {:induction false} AbsorbingStep(ts: seq<Record>, startTime: int, duration: int, rest: seq<Record>)
    requires ts != [] && !(Abs(duration) < Abs(FirstGapSize(ts, startTime)))
    requires rest == Transmissions(ts[1..], ts[0].EndTime(), duration - FirstGapSize(ts, startTime))
    ensures Transmissions(ts, startTime, duration)
            == [Record(startTime, FirstGapSize(ts, startTime) + ts[0].duration + rest[0].duration)] + rest[1..]
  {
  }

  /** Whatever the timeline, as long as its reservations do not last a
      negative time, a placement ends no earlier than the start plus the
      requested duration: a request that does not fit is only ever pushed
      later. */
  lemma {:induction false} ScheduleLeavesRoom(ts: seq<Record>, startTime: int, duration: int)
    requires duration >= 0
    requires forall i :: 0 <= i < |ts| ==> ts[i].duration >= 0
    ensures startTime + duration <= Transmissions(ts, startTime, duration)[0].EndTime()
    decreases |ts|
  {
    if ts != [] && !(Abs(duration) < Abs(FirstGapSize(ts, startTime))) {
      var rest := Transmissions(ts[1..], ts[0].EndTime(), duration - FirstGapSize(ts, startTime));
      assert forall i :: 0 <= i < |ts[1..]| ==> ts[1..][i].duration >= 0 by {
        forall i | 0 <= i < |ts[1..]| ensures ts[1..][i].duration >= 0 {
          assert ts[1..][i] == ts[i + 1];
        }
      }
      ScheduleLeavesRoom(ts[1..], ts[0].EndTime(), duration - FirstGapSize(ts, startTime));
      AbsorbingStep(ts, startTime, duration, rest);
    }
  }

  // ---------------------------------------------------------------------
  // Placement from the present on a timeline with a record in progress
  // ---------------------------------------------------------------------

  /** A channel's timeline after purging still holds a reservation that began
      before the present and has not ended. Placing a request from the present
      then sees a negative gap: a short request is put on top of that
      reservation, and a long one is pushed beyond its end by the size of the
      negative gap. */
  lemma {:induction false} InProgressRecordOverlaps()
    ensures Ordered([Record(0, 10)])
    ensures Transmissions([Record(0, 10)], 5, 3) == [Record(5, 3), Record(0, 10)]
    ensures !Ordered(Transmissions([Record(0, 10)], 5, 3))
    ensures Transmissions([Record(0, 10)], 5, 7) == [Record(5, 17)]
  {
    var r := Transmissions([Record(0, 10)], 5, 3);
    assert r[0].EndTime() > r[1].startTime;
    assert Transmissions([], 10, 12) == [Record(10, 12)];
  }

  /** A kept reservation that ends exactly at the present: a request that
      does not fit in the negative gap before it absorbs it and ends late by
      its length. */
  lemma {:induction false} RecordEndingNowAbsorbed()
    ensures Transmissions([Record(0, 5)], 5, 7) == [Record(5, 12)]
  {
    assert Transmissions([], 5, 12) == [Record(5, 12)];
  }

  /** Forward placement from `now` on the part of the timeline that lies
      after `now`: the part of an in-progress reservation that is already
      over is cut away, so the gap is never negative. */
  function ScheduleFrom(ts: seq<Record>, now: int, duration: int): (r: seq<Record>)
    ensures r != [] && r[0].startTime == now
  {
    Transmissions(SplitAt(ts, now).1, now, duration)
  }

  /** On any ordered timeline, placing from the present keeps the timeline
      ordered, ends no earlier than `now + duration` and covers exactly the
      future reservations plus the new span. */
  lemma {:induction false} ScheduleFromOrdered(ts: seq<Record>, now: int, duration: int)
    requires Ordered(ts) && duration >= 0
    ensures Ordered(ScheduleFrom(ts, now, duration))
    ensures now + duration <= ScheduleFrom(ts, now, duration)[0].EndTime()
    ensures forall x :: Busy(ScheduleFrom(ts, now, duration), x)
                        <==> (Busy(ts, x) && now <= x) || now <= x < ScheduleFrom(ts, now, duration)[0].EndTime()
  {
    var future := SplitAt(ts, now).1;
    var past := SplitAt(ts, now).0;
    SplitSeparates(ts, now);
    ScheduleForward(future, now, duration);
    var r := ScheduleFrom(ts, now, duration);
    forall x ensures Busy(r, x) <==> (Busy(ts, x) && now <= x) || now <= x < r[0].EndTime() {
      if Busy(past, x) {
        var i :| 0 <= i < |past| && past[i].startTime <= x < past[i].EndTime();
      }
      if Busy(future, x) {
        var i :| 0 <= i < |future| && future[i].startTime <= x < future[i].EndTime();
      }
    }
  }

  /** No reservation of the timeline began before `now`, and none is an
      empty one at `now`: its first record starts after `now`, or at `now`
      and lasts. */
  predicate NoneBegunBefore(ts: seq<Record>, now: int)
  {
    ts == [] || now < ts[0].startTime || (now == ts[0].startTime && 0 < ts[0].duration)
  }

  /** The corrected placement on the two timelines above queues the request
      behind the reservation in progress and ignores the one that has ended. */
  lemma {:induction false} CorrectedPlacementExamples()
    ensures ScheduleFrom([Record(0, 10)], 5, 3) == [Record(5, 8)]
    ensures ScheduleFrom([Record(0, 5)], 5, 7) == [Record(5, 7)]
  {
    SplitAtCases([Record(0, 10)], 5);
    assert SplitAt([Record(0, 10)], 5).1 == [Record(5, 5)];
    assert Transmissions([], 10, 3) == [Record(10, 3)];
    SplitAtCases([Record(0, 5)], 5);
    assert SplitAt([Record(0, 5)], 5).1 == [];
    assert Transmissions([], 5, 7) == [Record(5, 7)];
  }

  /** When no reservation has begun before `now`, the corrected placement
      and the placement on the whole timeline are the same. */
  lemma {:induction false} ScheduleFromAgrees(ts: seq<Record>, now: int, duration: int)
    requires Ordered(ts)
    requires NoneBegunBefore(ts, now)
    ensures ScheduleFrom(ts, now, duration) == Transmissions(ts, now, duration)
  {
    SplitAtCases(ts, now);
    if ts != [] && now == ts[0].startTime {
      if |ts| > 1 {
        assert ts[0].EndTime() <= ts[|ts| - 1].startTime;
      }
      assert ts[|ts| - 1].EndTime() >= now;
      assert ts == [Record(now, ts[0].EndTime() - now)] + ts[1..];
    }
  }
}

/** Reservations on one channel and the list algebra over them: a timeline is
    a sequence of records; it can be cut at an instant (SplitAt) and two
    timelines can be joined, coalescing a touching boundary (MergeWith).
    Instants and durations are integers (nanoseconds). */
module TransmissionRecords {

  /** A reservation that starts at `startTime` and lasts `duration`. The
      duration is signed: the channel also works on time-reversed timelines,
      whose records run backwards. */
  datatype Record = Record(startTime: int, duration: int) {
    function EndTime(): int { startTime + duration }
  }

  /** Two records closer than this (in nanoseconds) are considered equal. */
  const EqualityThresholdNs: int := 10

  function Abs(x: int): (r: nat)
    ensures r == x || r == -x
  {
    if x < 0 then -x else x
  }

  /** `TransmissionRecord` equality: start times and durations each
      differ by less than the threshold. */
  predicate Matches(a: Record, b: Record)
  {
    Abs(a.startTime - b.startTime) < EqualityThresholdNs
    && Abs(a.duration - b.duration) < EqualityThresholdNs
  }

  lemma {:induction false} MatchesIsReflexiveAndSymmetric(a: Record, b: Record)
    ensures Matches(a, a)
    ensures Matches(a, b) <==> Matches(b, a)
  {
  }

  /** The tolerant equality is not transitive: chains of records 9 ns apart
      match pairwise without their ends matching. */
  lemma {:induction false} MatchesIsNotTransitive()
    ensures Matches(Record(0, 5), Record(9, 5)) && Matches(Record(9, 5), Record(18, 5))
    ensures !Matches(Record(0, 5), Record(18, 5))
  {
  }

  /** Sum of all durations: the reserved time of an ordered timeline. */
  function Total(ts: seq<Record>): int
  {
    if ts == [] then 0 else ts[0].duration + Total(ts[1..])
  }

  lemma {:induction false} TotalAppend(a: seq<Record>, b: seq<Record>)
    ensures Total(a + b) == Total(a) + Total(b)
  {
    if a == [] {
      assert a + b == b;
    } else {
      assert (a + b)[0] == a[0];
      assert (a + b)[1..] == a[1..] + b;
      TotalAppend(a[1..], b);
    }
  }

  lemma {:induction false} TotalSplit(ts: seq<Record>, k: nat)
    requires k <= |ts|
    ensures Total(ts) == Total(ts[..k]) + Total(ts[k..])
  {
    assert ts == ts[..k] + ts[k..];
    TotalAppend(ts[..k], ts[k..]);
  }

  /** A forward timeline: no negative durations, and every record ends no
      later than any later record starts (ordered, non-overlapping). */
  ghost predicate Ordered(ts: seq<Record>)
  {
    (forall i :: 0 <= i < |ts| ==> ts[i].duration >= 0)
    && (forall i, j :: 0 <= i < j < |ts| ==> ts[i].EndTime() <= ts[j].startTime)
  }

  /** Instant `x` lies inside one of the reservations. */
  ghost predicate Busy(ts: seq<Record>, x: int)
  {
    exists i :: 0 <= i < |ts| && ts[i].startTime <= x < ts[i].EndTime()
  }

  lemma {:induction false} BusyAppend(a: seq<Record>, b: seq<Record>, x: int)
    ensures Busy(a + b, x) <==> Busy(a, x) || Busy(b, x)
  {
    if Busy(a + b, x) {
      var i :| 0 <= i < |a + b| && (a + b)[i].startTime <= x < (a + b)[i].EndTime();
      if i >= |a| {
        assert b[i - |a|] == (a + b)[i];
      }
    }
    if Busy(a, x) {
      var i :| 0 <= i < |a| && a[i].startTime <= x < a[i].EndTime();
      assert (a + b)[i] == a[i];
    }
    if Busy(b, x) {
      var i :| 0 <= i < |b| && b[i].startTime <= x < b[i].EndTime();
      assert (a + b)[|a| + i] == b[i];
    }
  }

  lemma {:induction false} BusySingle(r: Record, x: int)
    ensures Busy([r], x) <==> r.startTime <= x < r.EndTime()
  {
    if r.startTime <= x < r.EndTime() {
      assert [r][0] == r;
    }
  }

  // ---------------------------------------------------------------------
  // Cutting a timeline at an instant
  // ---------------------------------------------------------------------

  /** Cut the timeline at `time` into the reservations before and after it. */
  function SplitAt(ts: seq<Record>, time: int): (r: (seq<Record>, seq<Record>))
    ensures Total(r.0) + Total(r.1) == Total(ts)
    ensures |ts| <= |r.0| + |r.1| <= |ts| + 1
    decreases |ts|, 2
  {
    if ts == [] then ([], []) else SplitNonEmptyAt(ts, time)
  }

  function SplitNonEmptyAt(ts: seq<Record>, time: int): (r: (seq<Record>, seq<Record>))
    requires ts != []
    ensures Total(r.0) + Total(r.1) == Total(ts)
    ensures |ts| <= |r.0| + |r.1| <= |ts| + 1
    decreases |ts|, 1
  {
    if time < ts[0].startTime then ([], ts)
    else if ts[|ts| - 1].EndTime() < time then (ts, [])
    else if time < ts[0].EndTime() then SplitFirstRecordAt(ts, time)
    else SplitInTheMiddleAt(ts, time)
  }

  function SplitInTheMiddleAt(ts: seq<Record>, time: int): (r: (seq<Record>, seq<Record>))
    requires ts != []
    ensures Total(r.0) + Total(r.1) == Total(ts)
    ensures |ts| <= |r.0| + |r.1| <= |ts| + 1
    decreases |ts|, 0
  {
    var restSplit := SplitAt(ts[1..], time);
    assert Total([ts[0]] + restSplit.0) == ts[0].duration + Total(restSplit.0) by {
      assert ([ts[0]] + restSplit.0)[1..] == restSplit.0;
    }
    ([ts[0]] + restSplit.0, restSplit.1)
  }

  /** Cut the first record at `time`: the two pieces meet at `time` and
      together last as long as the record did. */
  function SplitFirstRecordAt(ts: seq<Record>, time: int): (r: (seq<Record>, seq<Record>))
    requires ts != []
    ensures |r.0| == 1 && r.0[0].startTime == ts[0].startTime && r.0[0].EndTime() == time
    ensures r.1 != [] && r.1[0].startTime == time && r.1[0].EndTime() == ts[0].EndTime()
    ensures r.1[1..] == ts[1..]
    ensures Total(r.0) + Total(r.1) == Total(ts)
  {
    var first := ts[0];
    var r := ([Record(first.startTime, time - first.startTime)],
              [Record(time, first.EndTime() - time)] + ts[1..]);
    assert r.1[1..] == ts[1..];
    r
  }

  /** The case split of SplitAt in one place. */
  lemma {:induction false} SplitAtCases(ts: seq<Record>, time: int)
    ensures SplitAt(ts, time) ==
      if ts == [] then ([], [])
      else if time < ts[0].startTime then ([], ts)
      else if ts[|ts| - 1].EndTime() < time then (ts, [])
      else if time < ts[0].EndTime() then
        ([Record(ts[0].startTime, time - ts[0].startTime)],
         [Record(time, ts[0].EndTime() - time)] + ts[1..])
      else ([ts[0]] + SplitAt(ts[1..], time).0, SplitAt(ts[1..], time).1)
  {
    if ts != [] {
      assert SplitAt(ts, time) == SplitNonEmptyAt(ts, time);
      if !(time < ts[0].startTime) && !(ts[|ts| - 1].EndTime() < time) && !(time < ts[0].EndTime()) {
        assert SplitNonEmptyAt(ts, time) == SplitInTheMiddleAt(ts, time);
      }
    }
  }

  // ---------------------------------------------------------------------
  // Joining two timelines
  // ---------------------------------------------------------------------

  /** Concatenate two timelines; when the last record of `a` ends exactly
      where the first record of `tail` starts, the two become one record. */
  function MergeWith(a: seq<Record>, tail: seq<Record>): (r: seq<Record>)
    ensures Total(r) == Total(a) + Total(tail)
    ensures a != [] && tail != [] && a[|a| - 1].EndTime() == tail[0].startTime
            ==> |r| == |a| + |tail| - 1
    ensures !(a != [] && tail != [] && a[|a| - 1].EndTime() == tail[0].startTime)
            ==> r == a + tail
  {
    if a == [] then tail
    else if tail == [] then a
    else if a[|a| - 1].EndTime() == tail[0].startTime then
      var last := a[|a| - 1];
      var joined := Record(last.startTime, last.duration + tail[0].duration);
      assert Total(a) == Total(a[..|a| - 1]) + last.duration by {
        assert a == a[..|a| - 1] + [last];
        TotalAppend(a[..|a| - 1], [last]);
      }
      assert Total(tail) == tail[0].duration + Total(tail[1..]);
      TotalAppend(a[..|a| - 1] + [joined], tail[1..]);
      TotalAppend(a[..|a| - 1], [joined]);
      a[..|a| - 1] + [joined] + tail[1..]
    else
      TotalAppend(a, tail);
      a + tail
  }

  // ---------------------------------------------------------------------
  // Properties
  // ---------------------------------------------------------------------

  /** Cutting a timeline and merging the halves gives back the timeline: the
      pieces of a cut record meet at the cut and are coalesced again. */
  lemma {:induction false} MergeSplitRoundTrip(ts: seq<Record>, time: int)
    ensures MergeWith(SplitAt(ts, time).0, SplitAt(ts, time).1) == ts
    decreases |ts|
  {
    SplitAtCases(ts, time);
    if ts == [] || time < ts[0].startTime || ts[|ts| - 1].EndTime() < time {
    } else if time < ts[0].EndTime() {
      var first := ts[0];
      assert [Record(first.startTime, (time - first.startTime) + (first.EndTime() - time))] + ts[1..] == ts;
    } else {
      var rest := SplitAt(ts[1..], time);
      MergeSplitRoundTrip(ts[1..], time);
      SplitBeforeEmpty(ts[1..], time);
      MergeAfterWholeRecord(ts, time, rest);
    }
  }

  /** Putting back a whole first record in front of the merged rest. */
  lemma {:induction false} MergeAfterWholeRecord(ts: seq<Record>, time: int, rest: (seq<Record>, seq<Record>))
    requires ts != [] && ts[0].EndTime() <= time
    requires MergeWith(rest.0, rest.1) == ts[1..]
    requires rest.0 == [] && rest.1 != [] ==> time < rest.1[0].startTime
    ensures MergeWith([ts[0]] + rest.0, rest.1) == ts
  {
    assert ts == [ts[0]] + ts[1..];
    if rest.0 == [] {
      assert [ts[0]] + rest.0 == [ts[0]];
    } else {
      MergeCons(ts[0], rest.0, rest.1);
    }
  }

  /** Merging only ever touches the end of the first timeline. */
  lemma {:induction false} MergeCons(first: Record, a: seq<Record>, b: seq<Record>)
    requires a != []
    ensures MergeWith([first] + a, b) == [first] + MergeWith(a, b)
  {
    var fa := [first] + a;
    var last := a[|a| - 1];
    assert fa[|fa| - 1] == last;
    if b == [] {
    } else if last.EndTime() == b[0].startTime {
      var joined := Record(last.startTime, last.duration + b[0].duration);
      assert fa[..|fa| - 1] == [first] + a[..|a| - 1];
      assert MergeWith(fa, b) == fa[..|fa| - 1] + [joined] + b[1..];
      assert MergeWith(a, b) == a[..|a| - 1] + [joined] + b[1..];
      assert ([first] + a[..|a| - 1]) + [joined] + b[1..] == [first] + (a[..|a| - 1] + [joined] + b[1..]);
    } else {
      assert fa + b == [first] + (a + b);
    }
  }

  /** The first half is empty only when the whole timeline lies after the cut. */
  lemma {:induction false} SplitBeforeEmpty(ts: seq<Record>, time: int)
    ensures SplitAt(ts, time).0 == [] ==> ts == [] || (time < ts[0].startTime && SplitAt(ts, time).1 == ts)
  {
    SplitAtCases(ts, time);
  }

  /** What cutting an ordered timeline at `time` into `a` and `b` promises:
      both halves are ordered, every record of `a` ends by the cut, every
      record of `b` starts at or after it, and together they cover exactly
      the instants the timeline covered. */
  ghost predicate SeparatedAt(ts: seq<Record>, time: int, a: seq<Record>, b: seq<Record>)
  {
    Ordered(a) && Ordered(b)
    && (forall i :: 0 <= i < |a| ==> a[i].EndTime() <= time)
    && (forall i :: 0 <= i < |b| ==> time <= b[i].startTime)
    && (forall x :: Busy(ts, x) <==> Busy(a, x) || Busy(b, x))
  }

  lemma {:induction false} SplitSeparates(ts: seq<Record>, time: int)
    requires Ordered(ts)
    ensures SeparatedAt(ts, time, SplitAt(ts, time).0, SplitAt(ts, time).1)
    decreases |ts|
  {
    SplitAtCases(ts, time);
    if ts == [] {
    } else if time < ts[0].startTime {
      SeparatedBeforeFirst(ts, time);
    } else if ts[|ts| - 1].EndTime() < time {
      SeparatedAfterLast(ts, time);
    } else if time < ts[0].EndTime() {
      SeparatedInsideFirst(ts, time);
    } else {
      SplitSeparates(ts[1..], time);
      forall k | 0 <= k < |SplitAt(ts[1..], time).0|
        ensures exists i :: 0 <= i < |ts[1..]| && SplitAt(ts[1..], time).0[k].startTime == ts[1..][i].startTime
      {
        SplitFirstHalfFromTimeline(ts[1..], time, k);
      }
      SeparatedAfterFirst(ts, time, SplitAt(ts[1..], time).0, SplitAt(ts[1..], time).1);
    }
  }

  lemma {:induction false} SeparatedBeforeFirst(ts: seq<Record>, time: int)
    requires Ordered(ts) && ts != [] && time < ts[0].startTime
    ensures SeparatedAt(ts, time, [], ts)
  {
    forall i | 0 <= i < |ts| ensures time <= ts[i].startTime {
      if i > 0 {
        assert ts[0].EndTime() <= ts[i].startTime;
      }
    }
  }

  lemma {:induction false} SeparatedAfterLast(ts: seq<Record>, time: int)
    requires Ordered(ts) && ts != [] && ts[|ts| - 1].EndTime() < time
    ensures SeparatedAt(ts, time, ts, [])
  {
    forall i | 0 <= i < |ts| ensures ts[i].EndTime() <= time {
      if i < |ts| - 1 {
        assert ts[i].EndTime() <= ts[|ts| - 1].startTime;
      }
    }
  }

  lemma {:induction false} SeparatedInsideFirst(ts: seq<Record>, time: int)
    requires Ordered(ts) && ts != [] && ts[0].startTime <= time < ts[0].EndTime()
    ensures SeparatedAt(ts, time, [Record(ts[0].startTime, time - ts[0].startTime)],
                        [Record(time, ts[0].EndTime() - time)] + ts[1..])
  {
    var first := ts[0];
    var left := Record(first.startTime, time - first.startTime);
    var right := Record(time, first.EndTime() - time);
    var b := [right] + ts[1..];
    forall i | 0 <= i < |b| ensures time <= b[i].startTime {
      if i > 0 {
        assert b[i] == ts[i];
        assert ts[0].EndTime() <= ts[i].startTime;
      }
    }
    forall k | 0 <= k < |ts[1..]| ensures right.EndTime() <= ts[1..][k].startTime {
      assert ts[1..][k] == ts[k + 1];
    }
    OrderedTail(ts, 1);
    OrderedCons(right, ts[1..]);
    forall x ensures Busy(ts, x) <==> Busy([left], x) || Busy(b, x) {
      BusySingle(left, x);
      BusySingle(right, x);
      BusySingle(first, x);
      BusyAppend([right], ts[1..], x);
      BusyAppend([first], ts[1..], x);
      assert ts == [first] + ts[1..];
    }
  }

  lemma {:induction false} SeparatedAfterFirst(ts: seq<Record>, time: int, a: seq<Record>, b: seq<Record>)
    requires Ordered(ts) && ts != [] && ts[0].EndTime() <= time
    requires SeparatedAt(ts[1..], time, a, b)
    requires forall k :: 0 <= k < |a| ==> exists i :: 0 <= i < |ts[1..]| && a[k].startTime == ts[1..][i].startTime
    ensures SeparatedAt(ts, time, [ts[0]] + a, b)
  {
    forall k | 0 <= k < |a| ensures ts[0].EndTime() <= a[k].startTime {
      var i :| 0 <= i < |ts[1..]| && a[k].startTime == ts[1..][i].startTime;
      assert ts[1..][i] == ts[i + 1];
    }
    OrderedCons(ts[0], a);
    var a' := [ts[0]] + a;
    forall i | 0 <= i < |a'| ensures a'[i].EndTime() <= time {
      if i > 0 {
        assert a'[i] == a[i - 1];
      }
    }
    forall x ensures Busy(ts, x) <==> Busy(a', x) || Busy(b, x) {
      BusyAppend([ts[0]], ts[1..], x);
      BusyAppend([ts[0]], a, x);
      assert ts == [ts[0]] + ts[1..];
    }
  }

  /** A record that ends before every record of an ordered timeline can be
      put in front of it. */
  lemma {:induction false} OrderedCons(r: Record, a: seq<Record>)
    requires Ordered(a) && r.duration >= 0
    requires forall k :: 0 <= k < |a| ==> r.EndTime() <= a[k].startTime
    ensures Ordered([r] + a)
  {
    var a' := [r] + a;
    forall i | 0 <= i < |a'| ensures a'[i].duration >= 0 {
      if i > 0 {
        assert a'[i] == a[i - 1];
      }
    }
    forall i, j | 0 <= i < j < |a'| ensures a'[i].EndTime() <= a'[j].startTime {
      assert a'[j] == a[j - 1];
      if i > 0 {
        assert a'[i] == a[i - 1];
      }
    }
  }

  /** Every record of the first half starts where some record of the
      timeline starts or later: the first half is drawn from the timeline. */
  lemma {:induction false} SplitFirstHalfFromTimeline(ts: seq<Record>, time: int, k: nat)
    requires k < |SplitAt(ts, time).0|
    ensures exists i :: 0 <= i < |ts| && SplitAt(ts, time).0[k].startTime == ts[i].startTime
    decreases |ts|
  {
    var r := SplitAt(ts, time);
    SplitAtCases(ts, time);
    if time < ts[0].startTime {
    } else if ts[|ts| - 1].EndTime() < time {
      assert r.0[k] == ts[k];
    } else if time < ts[0].EndTime() {
      assert r.0[k].startTime == ts[0].startTime;
    } else {
      if k == 0 {
        assert r.0[0] == ts[0];
      } else {
        SplitFirstHalfFromTimeline(ts[1..], time, k - 1);
        var i :| 0 <= i < |ts[1..]| && SplitAt(ts[1..], time).0[k - 1].startTime == ts[1..][i].startTime;
        assert r.0[k] == SplitAt(ts[1..], time).0[k - 1];
        assert ts[1..][i] == ts[i + 1];
      }
    }
  }
  /** Two ordered timelines, the first entirely before the second, joined. */
  lemma {:induction false} ConcatOrdered(a: seq<Record>, b: seq<Record>)
    requires Ordered(a) && Ordered(b)
    requires forall i, j :: 0 <= i < |a| && 0 <= j < |b| ==> a[i].EndTime() <= b[j].startTime
    ensures Ordered(a + b)
  {
    forall i, j | 0 <= i < j < |a + b| ensures (a + b)[i].EndTime() <= (a + b)[j].startTime {
      if j < |a| {
        assert (a + b)[i] == a[i] && (a + b)[j] == a[j];
      } else if i < |a| {
        assert (a + b)[i] == a[i] && (a + b)[j] == b[j - |a|];
      } else {
        assert (a + b)[i] == b[i - |a|] && (a + b)[j] == b[j - |a|];
      }
    }
    forall i | 0 <= i < |a + b| ensures (a + b)[i].duration >= 0 {
      if i < |a| {
        assert (a + b)[i] == a[i];
      } else {
        assert (a + b)[i] == b[i - |a|];
      }
    }
  }

  lemma {:induction false} OrderedTail(ts: seq<Record>, k: nat)
    requires Ordered(ts) && k <= |ts|
    ensures Ordered(ts[k..]) && Ordered(ts[..k])
  {
    forall i, j | 0 <= i < j < |ts[k..]| ensures ts[k..][i].EndTime() <= ts[k..][j].startTime {
      assert ts[k..][i] == ts[k + i] && ts[k..][j] == ts[k + j];
    }
  }

  /** Merging two ordered timelines where the first ends by the time the
      second starts gives an ordered timeline covering exactly the instants of
      both. */
  lemma {:induction false} MergeOrdered(a: seq<Record>, b: seq<Record>)
    requires Ordered(a) && Ordered(b)
    requires a != [] && b != [] ==> a[|a| - 1].EndTime() <= b[0].startTime
    ensures Ordered(MergeWith(a, b))
    ensures forall x :: Busy(MergeWith(a, b), x) <==> Busy(a, x) || Busy(b, x)
  {
    forall i, j | 0 <= i < |a| && 0 <= j < |b| ensures a[i].EndTime() <= b[j].startTime {
      if i < |a| - 1 {
        assert a[i].EndTime() <= a[|a| - 1].startTime;
      }
      if j > 0 {
        assert b[0].EndTime() <= b[j].startTime;
      }
    }
    if a == [] || b == [] || a[|a| - 1].EndTime() != b[0].startTime {
      ConcatOrdered(a, b);
      forall x ensures Busy(a + b, x) <==> Busy(a, x) || Busy(b, x) {
        BusyAppend(a, b, x);
      }
    } else {
      MergeCoalescedOrdered(a, b);
    }
  }

  lemma {:induction false} MergeCoalescedOrdered(a: seq<Record>, b: seq<Record>)
    requires Ordered(a) && Ordered(b) && a != [] && b != []
    requires a[|a| - 1].EndTime() == b[0].startTime
    ensures Ordered(MergeWith(a, b))
    ensures forall x :: Busy(MergeWith(a, b), x) <==> Busy(a, x) || Busy(b, x)
  {
    var last := a[|a| - 1];
    var joined := Record(last.startTime, last.duration + b[0].duration);
    assert MergeWith(a, b) == a[..|a| - 1] + [joined] + b[1..];
    CoalescedOrdered(a, b, joined);
    forall x ensures Busy(MergeWith(a, b), x) <==> Busy(a, x) || Busy(b, x) {
      CoalescedBusy(a, b, joined, x);
    }
  }

  /** The coalesced sequence keeps the order of both halves. */
  lemma {:induction false} CoalescedOrdered(a: seq<Record>, b: seq<Record>, joined: Record)
    requires Ordered(a) && Ordered(b) && a != [] && b != []
    requires a[|a| - 1].EndTime() == b[0].startTime
    requires joined == Record(a[|a| - 1].startTime, a[|a| - 1].duration + b[0].duration)
    ensures Ordered(a[..|a| - 1] + [joined] + b[1..])
  {
    var last := a[|a| - 1];
    var front := a[..|a| - 1];
    OrderedTail(a, |a| - 1);
    OrderedTail(b, 1);
    forall i | 0 <= i < |front| ensures front[i].EndTime() <= joined.startTime {
      assert a[i].EndTime() <= last.startTime;
    }
    ConcatOrdered(front, [joined]);
    forall i, j | 0 <= i < |front + [joined]| && 0 <= j < |b[1..]|
      ensures (front + [joined])[i].EndTime() <= b[1..][j].startTime
    {
      assert b[1..][j] == b[j + 1];
      assert b[0].EndTime() <= b[j + 1].startTime;
      if i < |front| {
        assert (front + [joined])[i] == a[i];
        assert a[i].EndTime() <= last.startTime;
      }
    }
    ConcatOrdered(front + [joined], b[1..]);
  }

  /** The coalesced sequence is busy exactly where one of the halves is. */
  lemma {:induction false} CoalescedBusy(a: seq<Record>, b: seq<Record>, joined: Record, x: int)
    requires a != [] && b != [] && b[0].duration >= 0 && a[|a| - 1].duration >= 0
    requires a[|a| - 1].EndTime() == b[0].startTime
    requires joined == Record(a[|a| - 1].startTime, a[|a| - 1].duration + b[0].duration)
    ensures Busy(a[..|a| - 1] + [joined] + b[1..], x) <==> Busy(a, x) || Busy(b, x)
  {
    var last := a[|a| - 1];
    var front := a[..|a| - 1];
    assert a == front + [last];
    assert b == [b[0]] + b[1..];
    BusyAppend(front + [joined], b[1..], x);
    BusyAppend(front, [joined], x);
    BusyAppend(front, [last], x);
    BusyAppend([b[0]], b[1..], x);
    BusySingle(joined, x);
    BusySingle(last, x);
    BusySingle(b[0], x);
  }
}

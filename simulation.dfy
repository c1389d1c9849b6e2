/** The discrete-event engine: an ordered set of events keyed by time and
    sequence number, a clock that jumps to each event as it is executed, a
    running flag that a pause clears, and a 32-bit sequence counter. */
module Simulation {
  import opened Events

  const IntMin: int := -0x8000_0000
  const IntMax: int := 0x7fff_ffff

  /** The successor of a 32-bit counter: one more, modulo 2^32, within the
      signed range. */
  function NextSequenceNumber(n: int): (r: int)
    requires IntMin <= n <= IntMax
    ensures IntMin <= r <= IntMax
    ensures (r - n - 1) % 0x1_0000_0000 == 0
  {
    if n == IntMax then IntMin else n + 1
  }

  /** The counter wraps from the largest to the smallest value. */
  lemma {:induction false} SequenceNumberWraps()
    ensures NextSequenceNumber(IntMax) == IntMin
  {
  }

  // ---------------------------------------------------------------------
  // The event queue: a set ordered by (time, sequence number)
  // ---------------------------------------------------------------------

  /** Strictly ascending in the event order, so no two events share a key. */
  predicate Sorted(q: seq<Event>)
  {
    forall i, j {:trigger Precedes(q[i], q[j])} :: 0 <= i < j < |q| ==> Precedes(q[i], q[j])
  }

  /** The queue already holds an event with the same time and sequence
      number as `e`. */
  predicate HasKeyOf(q: seq<Event>, e: Event)
  {
    exists i :: 0 <= i < |q| && CompareTo(q[i], e) == 0
  }

  /** Adding to the ordered set: the event goes to its place in the order;
      when an event with its key is already there, the set stays as it was. */
  function Insert(q: seq<Event>, e: Event): (r: seq<Event>)
    requires Sorted(q)
    ensures Sorted(r)
    ensures HasKeyOf(q, e) ==> r == q
    ensures !HasKeyOf(q, e) ==> |r| == |q| + 1 && forall x :: x in r <==> x in q || x == e
  {
    if q == [] then [e]
    else if Precedes(e, q[0]) then
      SortedCons(e, q);
      [e] + q
    else if CompareTo(e, q[0]) == 0 then q
    else
      var rest := Insert(q[1..], e);
      InsertBehindHead(q, e, rest);
      [q[0]] + rest
  }

  /** An event that precedes the head of a sorted queue has a key of its
      own and can go in front. */
  lemma {:induction false} SortedCons(e: Event, q: seq<Event>)
    requires Sorted(q) && q != [] && Precedes(e, q[0])
    ensures !HasKeyOf(q, e) && Sorted([e] + q)
  {
    forall i | 0 <= i < |q| ensures Precedes(e, q[i]) {
      if i > 0 {
        assert Precedes(q[0], q[i]);
        PrecedesTransitive(e, q[0], q[i]);
      }
    }
    forall i, j | 0 <= i < j < |[e] + q| ensures Precedes(([e] + q)[i], ([e] + q)[j]) {
      if i > 0 {
        assert Precedes(q[i - 1], q[j - 1]);
      }
    }
  }

  /** The step of `Insert` past a head that precedes the event: the head
      followed by the insertion into the tail is the insertion into the whole. */
  lemma {:induction false} InsertBehindHead(q: seq<Event>, e: Event, rest: seq<Event>)
    requires Sorted(q) && q != [] && !Precedes(e, q[0]) && CompareTo(e, q[0]) != 0
    requires Sorted(rest)
    requires HasKeyOf(q[1..], e) ==> rest == q[1..]
    requires !HasKeyOf(q[1..], e) ==> |rest| == |q| && forall x :: x in rest <==> x in q[1..] || x == e
    ensures Sorted([q[0]] + rest)
    ensures HasKeyOf(q, e) ==> [q[0]] + rest == q
    ensures !HasKeyOf(q, e) ==> |[q[0]] + rest| == |q| + 1 && forall x :: x in [q[0]] + rest <==> x in q || x == e
  {
    assert !HasKeyOf(q[1..], e) ==> !HasKeyOf(q, e) by {
      if HasKeyOf(q, e) {
        var i :| 0 <= i < |q| && CompareTo(q[i], e) == 0;
        assert q[1..][i - 1] == q[i];
      }
    }
    assert forall x :: x in rest ==> Precedes(q[0], x) by {
      forall x | x in rest ensures Precedes(q[0], x) {
        if x != e {
          assert x in q[1..];
        }
      }
    }
    assert q == [q[0]] + q[1..];
  }

  // ---------------------------------------------------------------------
  // The engine as a state and its transitions
  // ---------------------------------------------------------------------

  datatype Sim = Sim(now: int, queue: seq<Event>, running: bool, nextSequenceNumber: int)

  predicate WellFormed(s: Sim)
  {
    Sorted(s.queue) && IntMin <= s.nextSequenceNumber <= IntMax
  }

  /** A fresh engine: at instant 0, idle, nothing queued, the counter at its
      smallest value. */
  function Initial(): (s: Sim)
    ensures WellFormed(s) && s.queue == [] && !s.running && CounterAhead(s)
  {
    Sim(0, [], false, IntMin)
  }

  /** Schedule an event `delay` after now with the next sequence number; it
      is queued, not executed. */
  function Scheduled(s: Sim, delay: int, description: string, action: Action): (r: Sim)
    requires WellFormed(s)
    ensures WellFormed(r)
    ensures r.now == s.now && r.running == s.running
    ensures r.nextSequenceNumber == NextSequenceNumber(s.nextSequenceNumber)
  {
    var e := Event(s.now + delay, s.nextSequenceNumber, description, action);
    s.(queue := Insert(s.queue, e), nextSequenceNumber := NextSequenceNumber(s.nextSequenceNumber))
  }

  /** Schedule the follow-ups in order. */
  function Performed(s: Sim, fs: seq<FollowUp>): (r: Sim)
    requires WellFormed(s)
    ensures WellFormed(r) && r.now == s.now && r.running == s.running
    decreases |fs|
  {
    if fs == [] then s
    else
      var last := fs[|fs| - 1];
      Scheduled(Performed(s, fs[..|fs| - 1]), last.delay, last.description, last.action)
  }

  /** Execute an event: the clock jumps to its time, then its action runs. */
  function Executed(s: Sim, e: Event): (r: Sim)
    requires WellFormed(s)
    ensures WellFormed(r) && r.now == e.time
  {
    var t := Performed(s.(now := e.time), e.action.followUps);
    if e.action.pauses then t.(running := false) else t
  }

  /** Remove the least event and execute it. */
  function Stepped(s: Sim): (r: Sim)
    requires WellFormed(s) && s.queue != []
    ensures WellFormed(r) && r.now == s.queue[0].time
  {
    Executed(s.(queue := s.queue[1..]), s.queue[0])
  }

  /** Execute events while running and the queue is not empty. */
  function RunFrom(s: Sim): (r: Sim)
    requires WellFormed(s)
    ensures WellFormed(r)
    ensures !r.running || r.queue == []
    decreases Weight(s.queue)
  {
    if !s.running || s.queue == [] then s
    else
      SteppedWeighsLess(s);
      RunFrom(Stepped(s))
  }

  /** Start (or resume) a run. */
  function Ran(s: Sim): (r: Sim)
    requires WellFormed(s)
    ensures WellFormed(r)
  {
    RunFrom(s.(running := true))
  }

  // ---------------------------------------------------------------------
  // Termination: every execution uses up part of a finite plan
  // ---------------------------------------------------------------------

  /** The number of executions an action can still cause: itself and all the
      follow-ups it schedules, transitively. */
  function Size(a: Action): (n: nat)
    ensures n >= 1
    decreases a, 1
  {
    1 + SizeAll(a.followUps)
  }

  function SizeAll(fs: seq<FollowUp>): (n: nat)
    decreases fs, 0
  {
    if fs == [] then 0 else SizeAll(fs[..|fs| - 1]) + Size(fs[|fs| - 1].action)
  }

  /** The executions the queued events can still cause. */
  function Weight(q: seq<Event>): (n: nat)
  {
    if q == [] then 0 else Size(q[0].action) + Weight(q[1..])
  }

  lemma {:induction false} InsertWeight(q: seq<Event>, e: Event)
    requires Sorted(q)
    ensures Weight(Insert(q, e)) <= Weight(q) + Size(e.action)
    decreases |q|
  {
    if q != [] && !Precedes(e, q[0]) && CompareTo(e, q[0]) != 0 {
      InsertWeight(q[1..], e);
      assert Insert(q, e)[1..] == Insert(q[1..], e);
    }
  }

  lemma {:induction false} PerformedWeight(s: Sim, fs: seq<FollowUp>)
    requires WellFormed(s)
    ensures Weight(Performed(s, fs).queue) <= Weight(s.queue) + SizeAll(fs)
    decreases |fs|
  {
    if fs != [] {
      PerformedWeight(s, fs[..|fs| - 1]);
      InsertWeight(Performed(s, fs[..|fs| - 1]).queue,
                   Event(s.now + fs[|fs| - 1].delay, Performed(s, fs[..|fs| - 1]).nextSequenceNumber,
                         fs[|fs| - 1].description, fs[|fs| - 1].action));
      PerformedLast(s, fs);
    }
  }

  /** Scheduling a non-empty list of follow-ups inserts the last one into
      what scheduling the others left. */
  lemma {:induction false} PerformedLast(s: Sim, fs: seq<FollowUp>)
    requires WellFormed(s) && fs != []
    ensures Performed(s, fs).queue
            == Insert(Performed(s, fs[..|fs| - 1]).queue,
                      Event(s.now + fs[|fs| - 1].delay, Performed(s, fs[..|fs| - 1]).nextSequenceNumber,
                            fs[|fs| - 1].description, fs[|fs| - 1].action))
  {
    assert Performed(s, fs)
           == Scheduled(Performed(s, fs[..|fs| - 1]), fs[|fs| - 1].delay, fs[|fs| - 1].description, fs[|fs| - 1].action);
  }

  /** Executing an event leaves less to do. */
  lemma {:induction false} SteppedWeighsLess(s: Sim)
    requires WellFormed(s) && s.queue != []
    ensures Weight(Stepped(s).queue) < Weight(s.queue)
  {
    var e := s.queue[0];
    PerformedWeight(s.(queue := s.queue[1..], now := e.time), e.action.followUps);
  }

  // ---------------------------------------------------------------------
  // Properties of runs
  // ---------------------------------------------------------------------

  /** Every event the queue holds after scheduling was queued before or is
      one of the follow-ups, at its delay after now. */
  lemma {:induction false} PerformedEventsOrigin(s: Sim, fs: seq<FollowUp>, x: Event)
    requires WellFormed(s)
    requires x in Performed(s, fs).queue
    ensures x in s.queue || exists i :: 0 <= i < |fs| && x.action == fs[i].action && x.time == s.now + fs[i].delay
    decreases |fs|
  {
    if fs != [] {
      var init := fs[..|fs| - 1];
      var t := Performed(s, init);
      var last := fs[|fs| - 1];
      var e := Event(t.now + last.delay, t.nextSequenceNumber, last.description, last.action);
      if x in t.queue {
        PerformedEventsOrigin(s, init, x);
        if x !in s.queue {
          var i :| 0 <= i < |init| && x.action == init[i].action && x.time == s.now + init[i].delay;
          assert fs[i] == init[i];
        }
      } else {
        assert x == e;
      }
    }
  }

  /** An action that neither pauses nor leads to one that does. */
  predicate NeverPauses(a: Action)
    decreases a
  {
    !a.pauses && forall i :: 0 <= i < |a.followUps| ==> NeverPauses(a.followUps[i].action)
  }

  predicate QueueNeverPauses(q: seq<Event>)
  {
    forall x :: x in q ==> NeverPauses(x.action)
  }

  /** Executing an event whose actions never pause keeps the run going and
      keeps that property for everything queued, the follow-ups included. */
  lemma {:induction false} SteppedNeverPauses(s: Sim)
    requires WellFormed(s) && s.queue != [] && QueueNeverPauses(s.queue)
    ensures Stepped(s).running == s.running && QueueNeverPauses(Stepped(s).queue)
  {
    var e := s.queue[0];
    var t := s.(queue := s.queue[1..], now := e.time);
    assert NeverPauses(e.action);
    forall x | x in Stepped(s).queue ensures NeverPauses(x.action) {
      PerformedEventsOrigin(t, e.action.followUps, x);
      if x !in t.queue {
        var i :| 0 <= i < |e.action.followUps| && x.action == e.action.followUps[i].action
                 && x.time == t.now + e.action.followUps[i].delay;
      }
    }
  }

  /** A run in which no action pauses executes everything, including the
      events scheduled while it runs, and ends with an empty queue. */
  lemma {:induction false} RunWithoutPauseEmptiesQueue(s: Sim)
    requires WellFormed(s) && s.running && QueueNeverPauses(s.queue)
    ensures RunFrom(s).queue == [] && RunFrom(s).running
    decreases Weight(s.queue)
  {
    if s.queue != [] {
      SteppedWeighsLess(s);
      SteppedNeverPauses(s);
      RunWithoutPauseEmptiesQueue(Stepped(s));
    }
  }

  /** A run whose next event pauses stops right after executing it; the
      other queued events stay queued for a later run. */
  lemma {:induction false} PauseStopsAfterTheAction(s: Sim)
    requires WellFormed(s) && s.running && s.queue != [] && s.queue[0].action.pauses
    ensures RunFrom(s) == Stepped(s) && !RunFrom(s).running
    ensures RunFrom(s).now == s.queue[0].time
    ensures forall x :: x in s.queue[1..] ==> x in RunFrom(s).queue
  {
    var e := s.queue[0];
    var t := s.(queue := s.queue[1..], now := e.time);
    forall x | x in s.queue[1..] ensures x in RunFrom(s).queue {
      PerformedKeepsQueued(t, e.action.followUps, x);
    }
  }

  /** Scheduling never drops an event that was queued. */
  lemma {:induction false} PerformedKeepsQueued(s: Sim, fs: seq<FollowUp>, x: Event)
    requires WellFormed(s) && x in s.queue
    ensures x in Performed(s, fs).queue
    decreases |fs|
  {
    if fs != [] {
      var init := fs[..|fs| - 1];
      var t := Performed(s, init);
      var last := fs[|fs| - 1];
      var e := Event(t.now + last.delay, t.nextSequenceNumber, last.description, last.action);
      PerformedKeepsQueued(s, init, x);
    }
  }

  /** Every delay an action schedules, transitively, is non-negative. */
  predicate LooksAhead(a: Action)
    decreases a
  {
    forall i :: 0 <= i < |a.followUps| ==> 0 <= a.followUps[i].delay && LooksAhead(a.followUps[i].action)
  }

  /** Nothing queued lies before now, and every queued action looks ahead. */
  predicate Causal(s: Sim)
  {
    forall x :: x in s.queue ==> s.now <= x.time && LooksAhead(x.action)
  }

  /** Executing the least event of a causal state moves the clock forward
      and keeps the state causal. */
  lemma {:induction false} SteppedCausal(s: Sim)
    requires WellFormed(s) && s.queue != [] && Causal(s)
    ensures s.now <= Stepped(s).now && Causal(Stepped(s))
  {
    var e := s.queue[0];
    var t := s.(queue := s.queue[1..], now := e.time);
    assert LooksAhead(e.action);
    forall x | x in Stepped(s).queue ensures Stepped(s).now <= x.time && LooksAhead(x.action) {
      PerformedEventsOrigin(t, e.action.followUps, x);
      if x in t.queue {
        var j :| 0 <= j < |t.queue| && t.queue[j] == x;
        assert Precedes(s.queue[0], s.queue[j + 1]);
      } else {
        var i :| 0 <= i < |e.action.followUps| && x.action == e.action.followUps[i].action
                 && x.time == t.now + e.action.followUps[i].delay;
      }
    }
  }

  /** In a causal state, a run never moves the clock backwards, and what it
      leaves queued lies no earlier than the clock. */
  lemma {:induction false} RunNeverGoesBack(s: Sim)
    requires WellFormed(s) && Causal(s)
    ensures s.now <= RunFrom(s).now && Causal(RunFrom(s))
    decreases Weight(s.queue)
  {
    if s.running && s.queue != [] {
      SteppedWeighsLess(s);
      SteppedCausal(s);
      RunNeverGoesBack(Stepped(s));
    }
  }

  /** Two events scheduled for the same instant are both kept: their
      sequence numbers differ. */
  lemma {:induction false} SameInstantBothKept(s: Sim, delay: int, d0: string, a0: Action, d1: string, a1: Action)
    requires WellFormed(s) && s.queue == []
    ensures |Scheduled(Scheduled(s, delay, d0, a0), delay, d1, a1).queue| == 2
  {
    var t := Scheduled(s, delay, d0, a0);
    assert t.queue == [Event(s.now + delay, s.nextSequenceNumber, d0, a0)];
    assert !HasKeyOf(t.queue, Event(s.now + delay, t.nextSequenceNumber, d1, a1));
  }

  // ---------------------------------------------------------------------
  // First in, first out among events of the same instant
  // ---------------------------------------------------------------------

  /** Every queued event was numbered before the counter's current value. */
  predicate CounterAhead(s: Sim)
  {
    forall x :: x in s.queue ==> x.sequenceNumber < s.nextSequenceNumber
  }

  /** While the counter is ahead of the queue, a newly scheduled event is
      queued, and it comes after every queued event of the same instant. */
  lemma {:induction false} ScheduledAfterSameInstant(s: Sim, delay: int, description: string, action: Action)
    requires WellFormed(s) && CounterAhead(s)
    ensures Event(s.now + delay, s.nextSequenceNumber, description, action) in Scheduled(s, delay, description, action).queue
    ensures forall x :: x in s.queue && x.time == s.now + delay ==>
              Precedes(x, Event(s.now + delay, s.nextSequenceNumber, description, action))
  {
    var e := Event(s.now + delay, s.nextSequenceNumber, description, action);
    forall i | 0 <= i < |s.queue| ensures CompareTo(s.queue[i], e) != 0 {
      assert s.queue[i] in s.queue;
    }
  }

  /** Scheduling keeps the counter ahead of the queue until it wraps. */
  lemma {:induction false} ScheduledKeepsCounterAhead(s: Sim, delay: int, description: string, action: Action)
    requires WellFormed(s) && CounterAhead(s) && s.nextSequenceNumber < IntMax
    ensures CounterAhead(Scheduled(s, delay, description, action))
    ensures Scheduled(s, delay, description, action).nextSequenceNumber == s.nextSequenceNumber + 1
  {
    var e := Event(s.now + delay, s.nextSequenceNumber, description, action);
    var r := Scheduled(s, delay, description, action);
    forall x | x in r.queue ensures x.sequenceNumber < r.nextSequenceNumber {
      assert x in s.queue || x == e;
    }
  }

  /** Scheduling the follow-ups of an action keeps the counter ahead of the
      queue when there is room for one number per follow-up. */
  lemma {:induction false} PerformedKeepsCounterAhead(s: Sim, fs: seq<FollowUp>)
    requires WellFormed(s) && CounterAhead(s) && s.nextSequenceNumber + |fs| <= IntMax
    ensures CounterAhead(Performed(s, fs))
    ensures Performed(s, fs).nextSequenceNumber == s.nextSequenceNumber + |fs|
    decreases |fs|
  {
    if fs != [] {
      var last := fs[|fs| - 1];
      PerformedKeepsCounterAhead(s, fs[..|fs| - 1]);
      ScheduledKeepsCounterAhead(Performed(s, fs[..|fs| - 1]), last.delay, last.description, last.action);
    }
  }

  /** Executing the least event keeps the counter ahead of the queue when
      its follow-ups do not make the counter wrap. */
  lemma {:induction false} SteppedKeepsCounterAhead(s: Sim)
    requires WellFormed(s) && CounterAhead(s) && s.queue != []
    requires s.nextSequenceNumber + |s.queue[0].action.followUps| <= IntMax
    ensures CounterAhead(Stepped(s))
    ensures Stepped(s).nextSequenceNumber == s.nextSequenceNumber + |s.queue[0].action.followUps|
  {
    var t := s.(queue := s.queue[1..], now := s.queue[0].time);
    forall x | x in t.queue ensures x.sequenceNumber < t.nextSequenceNumber {
      assert x in s.queue;
    }
    PerformedKeepsCounterAhead(t, s.queue[0].action.followUps);
  }

  /** In a sorted queue, an event that precedes another sits before it. */
  lemma {:induction false} SortedPosition(q: seq<Event>, i: int, j: int)
    requires Sorted(q) && 0 <= i < |q| && 0 <= j < |q| && Precedes(q[i], q[j])
    ensures i < j
  {
    // the reverse pair, for which the queue's order is then consulted
    var back := Precedes(q[j], q[i]);
  }

  /** Two events scheduled for the same instant, one after the other, while
      the counter does not wrap, are both queued and run in the order they
      were scheduled. */
  lemma {:induction false} SameInstantFirstInFirstOut(s: Sim, delay: int, d0: string, a0: Action, d1: string, a1: Action)
    requires WellFormed(s) && CounterAhead(s) && s.nextSequenceNumber < IntMax
    ensures Event(s.now + delay, s.nextSequenceNumber, d0, a0) in Scheduled(Scheduled(s, delay, d0, a0), delay, d1, a1).queue
    ensures Event(s.now + delay, s.nextSequenceNumber + 1, d1, a1) in Scheduled(Scheduled(s, delay, d0, a0), delay, d1, a1).queue
    ensures forall i, j :: 0 <= i < |Scheduled(Scheduled(s, delay, d0, a0), delay, d1, a1).queue|
                        && 0 <= j < |Scheduled(Scheduled(s, delay, d0, a0), delay, d1, a1).queue|
                        && Scheduled(Scheduled(s, delay, d0, a0), delay, d1, a1).queue[i] == Event(s.now + delay, s.nextSequenceNumber, d0, a0)
                        && Scheduled(Scheduled(s, delay, d0, a0), delay, d1, a1).queue[j] == Event(s.now + delay, s.nextSequenceNumber + 1, d1, a1)
                        ==> i < j
  {
    var e0 := Event(s.now + delay, s.nextSequenceNumber, d0, a0);
    var e1 := Event(s.now + delay, s.nextSequenceNumber + 1, d1, a1);
    var t := Scheduled(s, delay, d0, a0);
    var u := Scheduled(t, delay, d1, a1);
    ScheduledAfterSameInstant(s, delay, d0, a0);
    ScheduledKeepsCounterAhead(s, delay, d0, a0);
    ScheduledAfterSameInstant(t, delay, d1, a1);
    assert e0 in u.queue;
    forall i, j | 0 <= i < |u.queue| && 0 <= j < |u.queue| && u.queue[i] == e0 && u.queue[j] == e1 ensures i < j {
      SortedPosition(u.queue, i, j);
    }
  }

  /** Once the counter has wrapped, the order reverses: of two events
      scheduled for the same instant, the later one is queued first. */
  lemma {:induction false} WrappedCounterReversesOrder()
    ensures Scheduled(Scheduled(Sim(0, [], false, IntMax), 0, "first", Action([], false)), 0, "second", Action([], false)).queue
            == [Event(0, IntMin, "second", Action([], false)), Event(0, IntMax, "first", Action([], false))]
  {
    var first := Event(0, IntMax, "first", Action([], false));
    var second := Event(0, IntMin, "second", Action([], false));
    assert Scheduled(Sim(0, [], false, IntMax), 0, "first", Action([], false)).queue == [first];
    assert Precedes(second, first);
  }

  // ---------------------------------------------------------------------
  // The engine as an object
  // ---------------------------------------------------------------------

  class Simulator {
    var now: int
    var queue: seq<Event>
    var isRunning: bool
    var sequenceNumber: int

    ghost function State(): Sim
      reads this
    {
      Sim(now, queue, isRunning, sequenceNumber)
    }

    constructor()
      ensures State() == Initial()
    {
      now := 0;
      queue := [];
      isRunning := false;
      sequenceNumber := IntMin;
    }

    /** Queue an event `delay` after now with the next sequence number. */
    method Schedule(delay: int, description: string, action: Action)
      requires WellFormed(State())
      modifies this
      ensures State() == Scheduled(old(State()), delay, description, action)
    {
      var e := Event(now + delay, sequenceNumber, description, action);
      queue := Insert(queue, e);
      sequenceNumber := NextSequenceNumber(sequenceNumber);
    }

    /** Execute events until the queue is empty or an action pauses. */
    method Run()
      requires WellFormed(State())
      modifies this
      ensures State() == Ran(old(State()))
    {
      isRunning := true;
      while isRunning && queue != []
        invariant WellFormed(State())
        invariant RunFrom(State()) == Ran(old(State()))
        decreases Weight(queue)
      {
        SteppedWeighsLess(State());
        var nextEvent := PopNextEvent();
        Execute(nextEvent);
      }
    }

    method Pause()
      modifies this
      ensures State() == old(State()).(running := false)
    {
      isRunning := false;
    }

    /** Drop every queued event; the clock stays. */
    method Reset()
      modifies this
      ensures State() == old(State()).(queue := [])
    {
      queue := [];
    }

    /** Remove and return the least event. */
    method PopNextEvent() returns (e: Event)
      requires WellFormed(State()) && queue != []
      modifies this
      ensures e == old(queue[0]) && forall x :: x in queue ==> Precedes(e, x)
      ensures State() == old(State()).(queue := old(queue[1..]))
    {
      e := queue[0];
      queue := queue[1..];
    }

    /** Move the clock to the event's time and run its action. */
    method Execute(event: Event)
      requires WellFormed(State())
      modifies this
      ensures State() == Executed(old(State()), event)
    {
      now := event.time;
      ghost var start := State();
      var followUps := event.action.followUps;
      for i := 0 to |followUps|
        invariant WellFormed(State())
        invariant State() == Performed(start, followUps[..i])
      {
        assert followUps[..i + 1][..i] == followUps[..i];
        Schedule(followUps[i].delay, followUps[i].description, followUps[i].action);
      }
      assert followUps[..|followUps|] == followUps;
      if event.action.pauses {
        Pause();
      }
    }
  }
}

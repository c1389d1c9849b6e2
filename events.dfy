/** Events of the discrete-event engine: when they happen, the sequence
    number that orders events of the same instant, a description, and what
    the action does when the event is executed. */
module Events {

  /** What an action does when it runs, as data: it schedules its follow-up
      events in order, then pauses the run if `pauses` is set. */
  datatype Action = Action(followUps: seq<FollowUp>, pauses: bool)

  /** An event an action schedules, `delay` after the instant it runs. */
  datatype FollowUp = FollowUp(delay: int, description: string, action: Action)

  datatype Event = Event(time: int, sequenceNumber: int, description: string, action: Action)

  /** The sign of a comparison: -1, 0 or 1. */
  function Sign(x: int): (r: int)
    ensures r == -1 || r == 0 || r == 1
    ensures r < 0 <==> x < 0
    ensures r == 0 <==> x == 0
  {
    if x < 0 then -1 else if x == 0 then 0 else 1
  }

  /** Compare by time, and by sequence number only when the times are equal. */
  function CompareTo(a: Event, b: Event): (r: int)
    ensures r == -1 || r == 0 || r == 1
    ensures r == 0 <==> a.time == b.time && a.sequenceNumber == b.sequenceNumber
    ensures r < 0 <==> a.time < b.time || (a.time == b.time && a.sequenceNumber < b.sequenceNumber)
  {
    var result := Sign(a.time - b.time);
    if result == 0 then Sign(a.sequenceNumber - b.sequenceNumber) else result
  }

  /** `a` comes before `b` in the event order. */
  predicate Precedes(a: Event, b: Event)
  {
    CompareTo(a, b) < 0
  }

  /** An event at an earlier time comes first, whatever the sequence numbers. */
  lemma {:induction false} EarlierTimePrecedes(a: Event, b: Event)
    requires a.time < b.time
    ensures Precedes(a, b) && CompareTo(a, b) == -1
  {
  }

  /** Swapping the operands negates the comparison. */
  lemma {:induction false} CompareToAntisymmetric(a: Event, b: Event)
    ensures CompareTo(b, a) == -CompareTo(a, b)
  {
  }

  /** The order is transitive. */
  lemma {:induction false} PrecedesTransitive(a: Event, b: Event, c: Event)
    requires Precedes(a, b) && Precedes(b, c)
    ensures Precedes(a, c)
  {
  }

  /** Of two events with different keys, exactly one comes first. */
  lemma {:induction false} PrecedesTotal(a: Event, b: Event)
    requires a.time != b.time || a.sequenceNumber != b.sequenceNumber
    ensures Precedes(a, b) != Precedes(b, a)
  {
  }

  // ---------------------------------------------------------------------
  // String form "<time>: <description>"
  // ---------------------------------------------------------------------

  function DigitChar(d: nat): (c: char)
    requires d < 10
    ensures '0' <= c <= '9' && c as int - '0' as int == d
  {
    (d + '0' as int) as char
  }

  predicate IsDigits(s: string)
  {
    s != [] && forall i :: 0 <= i < |s| ==> '0' <= s[i] <= '9'
  }

  /** Decimal digits of a natural number, most significant first. */
  function NatToString(n: nat): (s: string)
    ensures IsDigits(s)
  {
    if n < 10 then [DigitChar(n)] else NatToString(n / 10) + [DigitChar(n % 10)]
  }

  /** The number a string of decimal digits denotes. */
  function DigitsValue(s: string): (v: nat)
    requires IsDigits(s)
  {
    var d := s[|s| - 1] as int - '0' as int;
    if |s| == 1 then d else DigitsValue(s[..|s| - 1]) * 10 + d
  }

  /** Reading the digits back gives the number. */
  lemma {:induction false} NatToStringRoundTrip(n: nat)
    ensures DigitsValue(NatToString(n)) == n
  {
    if n >= 10 {
      NatToStringRoundTrip(n / 10);
      var s := NatToString(n);
      assert s[..|s| - 1] == NatToString(n / 10);
    }
  }

  /** An integer in decimal, with a leading '-' when negative. */
  function IntToString(x: int): (s: string)
    ensures s != [] && forall i :: 0 <= i < |s| ==> s[i] != ':'
  {
    if x < 0 then "-" + NatToString(-x) else NatToString(x)
  }

  /** A written integer starts with '-' exactly when it is negative. */
  lemma {:induction false} IntToStringSign(x: int)
    ensures (IntToString(x)[0] == '-') == (x < 0)
  {
  }

  /** Different integers are written differently. */
  lemma {:induction false} IntToStringInjective(x: int, y: int)
    requires IntToString(x) == IntToString(y)
    ensures x == y
  {
    IntToStringSign(x);
    IntToStringSign(y);
    var s := IntToString(x);
    NatToStringRoundTrip(if x < 0 then -x else x);
    NatToStringRoundTrip(if y < 0 then -y else y);
    if x < 0 {
      assert NatToString(-x) == s[1..] == NatToString(-y);
    }
  }

  /** The event as text: its time, a colon and a blank, its description. */
  function ToString(e: Event): (s: string)
    ensures |s| == |IntToString(e.time)| + 2 + |e.description|
  {
    IntToString(e.time) + ": " + e.description
  }

  /** The position of the first colon, or the length when there is none. */
  function ColonIndex(s: string): (k: nat)
    ensures k <= |s|
    ensures forall i :: 0 <= i < k ==> s[i] != ':'
    ensures k < |s| ==> s[k] == ':'
  {
    if s == [] then 0 else if s[0] == ':' then 0 else 1 + ColonIndex(s[1..])
  }

  /** In `prefix + ": " + rest` with no colon in the prefix, the first colon
      follows the prefix. */
  lemma {:induction false} ColonAfterPrefix(a: string, d: string)
    requires forall i :: 0 <= i < |a| ==> a[i] != ':'
    ensures ColonIndex(a + ": " + d) == |a|
  {
    var s := a + ": " + d;
    assert s[|a|] == ':';
    assert forall i :: 0 <= i < |a| ==> s[i] == a[i];
  }

  /** The text is split back into prefix and rest at its first colon. */
  lemma {:induction false} SplitAtFirstColon(a: string, d: string, b: string, e: string)
    requires forall i :: 0 <= i < |a| ==> a[i] != ':'
    requires forall i :: 0 <= i < |b| ==> b[i] != ':'
    requires a + ": " + d == b + ": " + e
    ensures a == b && d == e
  {
    var s := a + ": " + d;
    ColonAfterPrefix(a, d);
    ColonAfterPrefix(b, e);
    assert a == s[..|a|];
    assert b == s[..|b|];
    assert d == s[|a| + 2..];
    assert e == s[|b| + 2..];
  }

  /** The text of an event determines its time and its description. */
  lemma {:induction false} ToStringDeterminesTimeAndDescription(x: Event, y: Event)
    requires ToString(x) == ToString(y)
    ensures x.time == y.time && x.description == y.description
  {
    SplitAtFirstColon(IntToString(x.time), x.description, IntToString(y.time), y.description);
    IntToStringInjective(x.time, y.time);
  }
}

/**
 * The slots offered when a user starts a booking: eight start times half an
 * hour apart from the current minute, seconds dropped, wrapping at midnight.
 */
module SlotClock {
  import opened Basics
  import opened TimeOfDay

  const SlotCount: nat := 8
  const SlotStep: nat := 30

  /** The minute of the day of slot `i`: `now + 30·i`, wrapped at midnight. */
  function SlotMinute(now: Minute, i: nat): Minute {
    (now + SlotStep * i) % MinutesPerDay
  }

  /** Fewer than a day's worth of steps apart, two slots never fall on the same minute. */
  lemma SlotMinutesDistinct(now: Minute, i: nat, j: nat)
    requires i < j < SlotCount
    ensures SlotMinute(now, i) != SlotMinute(now, j)
  {
    var a, b := now + SlotStep * i, now + SlotStep * j;
    assert 0 < b - a < MinutesPerDay;
    assert a == a / MinutesPerDay * MinutesPerDay + a % MinutesPerDay;
    assert b == b / MinutesPerDay * MinutesPerDay + b % MinutesPerDay;
  }

  /**
   * The slot loop of the time picker: slot `i` is the text of `now + 30·i`
   * minutes. The eight texts are distinct and each reads back as its minute.
   */
  method OfferableSlots(now: Minute) returns (slots: seq<string>)
    ensures |slots| == SlotCount
    ensures forall i :: 0 <= i < |slots| ==> |slots[i]| == 5 && Parse(slots[i]) == Some(SlotMinute(now, i))
    ensures forall i, j :: 0 <= i < j < |slots| ==> slots[i] != slots[j]
  {
    slots := [];
    for i := 0 to SlotCount
      invariant |slots| == i
      invariant forall k :: 0 <= k < i ==> slots[k] == Format(SlotMinute(now, k))
    {
      slots := slots + [Format(SlotMinute(now, i))];
    }
    forall i | 0 <= i < |slots|
      ensures |slots[i]| == 5 && Parse(slots[i]) == Some(SlotMinute(now, i))
    {
      ParseFormat(SlotMinute(now, i));
    }
    forall i, j | 0 <= i < j < |slots|
      ensures slots[i] != slots[j]
    {
      SlotMinutesDistinct(now, i, j);
      FormatInjective(SlotMinute(now, i), SlotMinute(now, j));
    }
  }
}

/** Worked examples of the model on concrete inputs. */
module Scenarios {
  import opened Basics
  import opened TimeOfDay
  import opened BreakTypes
  import opened SlotClock
  import opened BookingTable

  /** From 09:00 the first slots are 09:00, 09:30, 10:00, 10:30; from 23:45 the second is 00:15. */
  lemma SlotTexts()
    ensures Format(SlotMinute(540, 0)) == "09:00"
    ensures Format(SlotMinute(540, 1)) == "09:30"
    ensures Format(SlotMinute(540, 2)) == "10:00"
    ensures Format(SlotMinute(540, 3)) == "10:30"
    ensures Format(SlotMinute(23 * 60 + 45, 1)) == "00:15"
  {
  }

  /** The texts of a few concrete minutes. */
  lemma Texts()
    ensures Format(720) == "12:00" && Format(730) == "12:10"
    ensures Format(1410) == "23:30" && Format(15) == "00:15"
  {
    assert DigitChar(0) == '0' && DigitChar(1) == '1' && DigitChar(2) == '2' && DigitChar(3) == '3' && DigitChar(5) == '5';
    assert Format(720) == [DigitChar(1), DigitChar(2), ':', DigitChar(0), DigitChar(0)];
    assert Format(730) == [DigitChar(1), DigitChar(2), ':', DigitChar(1), DigitChar(0)];
    assert Format(1410) == [DigitChar(2), DigitChar(3), ':', DigitChar(3), DigitChar(0)];
    assert Format(15) == [DigitChar(0), DigitChar(0), ':', DigitChar(1), DigitChar(5)];
  }

  /** A lunch starting at 23:30 ends at 00:15, past midnight. */
  lemma LunchAcrossMidnight()
    ensures EndTime("23:30", Lunch.duration) == Some("00:15")
  {
    Texts();
    ParseFormat(1410);
    assert Parse("23:30") == Some(1410);
    assert (1410 + Lunch.duration) % MinutesPerDay == 15;
  }

  /** `strptime` accepts one-digit fields, so "9:5" starts a smoke break that ends at "09:15". */
  lemma OneDigitFields()
    ensures EndTime("9:5", Smoke.duration) == Some("09:15")
  {
    assert HourField("9:5"[..1]) && MinuteField("9:5"[2..]);
    assert FieldValue("9:5"[..1]) == 9 && FieldValue("9:5"[2..]) == 5;
  }

  /** Hour 24 is out of range, so "24:00" is rejected as malformed. */
  lemma HourOutOfRange()
    ensures EndTime("24:00", Smoke.duration) == None
  {
    assert !HourField("24:00"[..2]);
  }

  /** A user with no smoke break booked gets a smoke slot at a well-formed time while it has room. */
  lemma SmokeBooked(rows: seq<Booking>, u: int, t: string, at: Timestamp)
    requires Parse(t).Some?
    requires Count(rows, SlotQ(Smoke.name, t)) < 3
    requires Count(rows, UserTypeQ(u, Smoke.name)) == 0
    ensures Book(rows, u, "smoke", t, at)
         == (Booked(t, EndTime(t, 10).value), rows + [Booking(|rows| + 1, u, Smoke.name, t, EndTime(t, 10).value, Active, at)])
  {
  }

  /** The table after users 1, 2 and 3 each book a smoke break at `t`. */
  function ThreeSmokers(t: string, at: Timestamp): seq<Booking> {
    var t1 := Book([], 1, "smoke", t, at).1;
    var t2 := Book(t1, 2, "smoke", t, at).1;
    Book(t2, 3, "smoke", t, at).1
  }

  /** All three bookings succeed: the slot then holds three active rows, one of them user 1's. */
  lemma ThreeSmokersBooked(t: string, other: string, at: Timestamp)
    requires Parse(t).Some? && other != t
    ensures |ThreeSmokers(t, at)| == 3
    ensures Count(ThreeSmokers(t, at), SlotQ(Smoke.name, t)) == 3
    ensures Count(ThreeSmokers(t, at), SlotQ(Smoke.name, other)) == 0
    ensures Count(ThreeSmokers(t, at), UserTypeQ(1, Smoke.name)) == 1
  {
    var slot, end := SlotQ(Smoke.name, t), EndTime(t, 10).value;
    SmokeBooked([], 1, t, at);
    var b1 := Booking(1, 1, Smoke.name, t, end, Active, at);
    var t1 := [] + [b1];
    CountAppend([], b1, slot);
    CountAppend([], b1, UserTypeQ(2, Smoke.name));
    SmokeBooked(t1, 2, t, at);
    var b2 := Booking(2, 2, Smoke.name, t, end, Active, at);
    var t2 := t1 + [b2];
    CountAppend(t1, b2, slot);
    CountAppend([], b1, UserTypeQ(3, Smoke.name));
    CountAppend(t1, b2, UserTypeQ(3, Smoke.name));
    SmokeBooked(t2, 3, t, at);
    var b3 := Booking(3, 3, Smoke.name, t, end, Active, at);
    assert ThreeSmokers(t, at) == t2 + [b3];
    CountAppend(t2, b3, slot);
    var mine, elsewhere := UserTypeQ(1, Smoke.name), SlotQ(Smoke.name, other);
    CountAppend([], b1, mine);
    CountAppend(t1, b2, mine);
    CountAppend(t2, b3, mine);
    CountAppend([], b1, elsewhere);
    CountAppend(t1, b2, elsewhere);
    CountAppend(t2, b3, elsewhere);
  }

  /**
   * Once three users fill a smoke slot, a fourth is turned away with 3/3, and
   * the first cannot book a second smoke break at another time that has room.
   */
  lemma SmokeSlotFills(t: string, other: string, at: Timestamp)
    requires Parse(t).Some? && other != t
    ensures Book(ThreeSmokers(t, at), 4, "smoke", t, at) == (SlotFull(3, 3), ThreeSmokers(t, at))
    ensures Book(ThreeSmokers(t, at), 1, "smoke", other, at) == (AlreadyBooked, ThreeSmokers(t, at))
  {
    ThreeSmokersBooked(t, other, at);
    BookFullSlot(ThreeSmokers(t, at), 4, "smoke", t, at);
    BookDuplicate(ThreeSmokers(t, at), 1, "smoke", other, at);
  }
}

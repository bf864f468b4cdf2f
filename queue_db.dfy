/**
 * The bot's database as one object holding the `users` and `bookings` tables,
 * with the operations that change them in place and the time picker that
 * reads them.
 */
module BreakQueue {
  import opened Basics
  import opened TimeOfDay
  import opened BreakTypes
  import opened SlotClock
  import opened BookingTable
  import opened UserTable

  /** A button of the time picker: the slot's text and whether it is shown as full. */
  datatype SlotButton = SlotButton(time: string, full: bool)

  class QueueDb {
    var users: seq<User>
    var bookings: seq<Booking>

    /** Primary key on users; consistency, capacity and no-duplicates on bookings. */
    ghost predicate Valid()
      reads this
    {
      UniqueIds(users) && Invariants(bookings)
    }

    /** Freshly created tables are empty. */
    constructor ()
      ensures Valid() && users == [] && bookings == []
    {
      users := [];
      bookings := [];
      EmptyTableInvariants();
    }

    /** `register_user`: insert the user unless the id is already there. */
    method RegisterUser(userId: int, username: Option<string>, fullName: string, at: Timestamp)
      requires Valid()
      modifies this
      ensures Valid()
      ensures users == InsertOrIgnore(old(users), User(userId, username, fullName, at))
      ensures bookings == old(bookings)
    {
      var row := User(userId, username, fullName, at);
      if !Known(users, userId) {
        users := users + [row];
      }
    }

    /**
     * `create_booking`: the outcome and the new table are those of `Book`, so
     * both invariants still hold and earlier rows are untouched.
     */
    method CreateBooking(userId: int, key: string, startTime: string, at: Timestamp) returns (outcome: Outcome)
      requires Valid()
      modifies this
      ensures Valid()
      ensures (outcome, bookings) == Book(old(bookings), userId, key, startTime, at)
      ensures Evolves(old(bookings), bookings)
      ensures users == old(users)
    {
      BookPreservesInvariants(bookings, userId, key, startTime, at);
      var info: BreakInfo;
      match Lookup(key) {
        case None =>
          return UnknownBreak;
        case Some(found) =>
          info := found;
      }
      var current := Count(bookings, SlotQ(info.name, startTime));
      if current >= info.maxUsers {
        return SlotFull(current, info.maxUsers);
      }
      if Count(bookings, UserTypeQ(userId, info.name)) > 0 {
        return AlreadyBooked;
      }
      var endTime := EndTime(startTime, info.duration);
      if endTime.None? {
        return MalformedTime;
      }
      bookings := bookings + [Booking(|bookings| + 1, userId, info.name, startTime, endTime.value, Active, at)];
      outcome := Booked(startTime, endTime.value);
    }

    /**
     * The cancel branch of the message handler: mark every active row of the
     * user cancelled and return how many rows changed.
     */
    method CancelAll(userId: int) returns (count: nat)
      requires Valid()
      modifies this
      ensures Valid()
      ensures bookings == CancelUser(old(bookings), userId)
      ensures count == Count(old(bookings), UserQ(userId))
      ensures Evolves(old(bookings), bookings)
      ensures users == old(users)
    {
      CancelPreservesInvariants(bookings, userId);
      var rows;
      rows, count := CancelRows(bookings, userId);
      bookings := rows;
    }

    /**
     * The statistics view: the number of registered users and the number of
     * active bookings, which is the number of rows still marked active.
     */
    function Stats(): (r: (nat, nat))
      reads this
      ensures r.0 == |users|
      ensures r.1 == |Matching(bookings, AnyActiveQ)|
    {
      CountIsRowCount(bookings, AnyActiveQ);
      (|users|, Count(bookings, AnyActiveQ))
    }

    /**
     * `show_time_selection`: the eight offered slots, each marked full exactly
     * when its active count has reached the category's capacity. Full slots
     * are still listed.
     */
    method TimeSelection(key: string, now: Minute) returns (buttons: Option<seq<SlotButton>>)
      ensures buttons.None? <==> Lookup(key).None?
      ensures buttons.Some? ==>
                && |buttons.value| == SlotCount
                && forall i :: 0 <= i < SlotCount ==>
                     && |buttons.value[i].time| == 5
                     && Parse(buttons.value[i].time) == Some(SlotMinute(now, i))
                     && (buttons.value[i].full <==>
                           Count(bookings, SlotQ(Lookup(key).value.name, buttons.value[i].time))
                             >= Lookup(key).value.maxUsers)
      ensures buttons.Some? ==>
                forall i, j :: 0 <= i < j < |buttons.value| ==> buttons.value[i].time != buttons.value[j].time
    {
      var info: BreakInfo;
      match Lookup(key) {
        case None =>
          return None;
        case Some(found) =>
          info := found;
      }
      var slots := OfferableSlots(now);
      var marks: seq<SlotButton> := [];
      for i := 0 to |slots|
        invariant |marks| == i
        invariant forall k :: 0 <= k < i ==>
                    marks[k] == SlotButton(slots[k], Count(bookings, SlotQ(info.name, slots[k])) >= info.maxUsers)
      {
        var count := Count(bookings, SlotQ(info.name, slots[i]));
        marks := marks + [SlotButton(slots[i], count >= info.maxUsers)];
      }
      buttons := Some(marks);
    }
  }

  /**
   * The row scan of `UPDATE bookings SET status = 'cancelled' WHERE user_id = ?
   * AND status = 'active'`: every active row of the user is cancelled, and
   * `count` is the statement's row count.
   */
  method CancelRows(before: seq<Booking>, userId: int) returns (rows: seq<Booking>, count: nat)
    ensures rows == CancelUser(before, userId)
    ensures count == Count(before, UserQ(userId))
  {
    rows := before;
    count := 0;
    var i := 0;
    while i < |rows|
      invariant 0 <= i <= |rows| == |before|
      invariant forall k :: 0 <= k < i ==> rows[k] == CancelRow(before[k], userId)
      invariant forall k :: i <= k < |rows| ==> rows[k] == before[k]
      invariant count == Count(before[..i], UserQ(userId))
    {
      CountPrefixStep(before, i, UserQ(userId));
      if rows[i].userId == userId && rows[i].status == Active {
        rows := rows[i := CancelRow(rows[i], userId)];
        count := count + 1;
      }
      i := i + 1;
    }
    assert before[..i] == before;
  }

  /**
   * The picker's marks agree with what booking then does: a slot shown full
   * is rejected as full, and a slot shown free is booked for a user with no
   * active booking of the category, ending `duration` minutes after it starts.
   */
  lemma SlotMarkAgreesWithBooking(rows: seq<Booking>, userId: int, key: string, now: Minute, i: nat, at: Timestamp)
    requires Lookup(key).Some? && i < SlotCount
    ensures var info, slot := Lookup(key).value, Format(SlotMinute(now, i));
            Count(rows, SlotQ(info.name, slot)) >= info.maxUsers ==>
              Book(rows, userId, key, slot, at).0.SlotFull?
    ensures var info, slot := Lookup(key).value, Format(SlotMinute(now, i));
            Count(rows, SlotQ(info.name, slot)) < info.maxUsers && Count(rows, UserTypeQ(userId, info.name)) == 0 ==>
              && Book(rows, userId, key, slot, at).0.Booked?
              && Book(rows, userId, key, slot, at).0.endTime == Format((SlotMinute(now, i) + info.duration) % MinutesPerDay)
  {
    var info, slot := Lookup(key).value, Format(SlotMinute(now, i));
    ParseFormat(SlotMinute(now, i));
    var end := Book(rows, userId, key, slot, at).0;
    if end.Booked? {
      FormatParse(end.endTime);
    }
  }
}

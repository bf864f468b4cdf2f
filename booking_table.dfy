/**
 * The `bookings` table as a sequence of rows, the queries the bot runs
 * against it, and the two writes it makes: appending a booking and
 * soft-cancelling every active booking of a user. Row `i` holds the booking
 * with id `i + 1`: ids come from AUTOINCREMENT and rows are never deleted.
 */
module BookingTable {
  import opened Basics
  import opened TimeOfDay
  import opened BreakTypes

  datatype Status = Active | Cancelled

  /** A row of `bookings`; `breakType` holds the category's display name. */
  datatype Booking = Booking(
    id: nat,
    userId: int,
    breakType: string,
    startTime: string,
    endTime: string,
    status: Status,
    createdAt: Timestamp)

  /** The WHERE clauses the bot counts or selects by; each one matches active rows only. */
  datatype Query =
    | SlotQ(breakType: string, startTime: string)  // get_bookings_count
    | UserTypeQ(userId: int, breakType: string)     // duplicate check of create_booking
    | UserQ(userId: int)                            // get_user_bookings and cancel-all
    | AnyActiveQ                                    // the active total in the statistics

  predicate Selects(q: Query, b: Booking) {
    b.status == Active &&
    match q
    case SlotQ(bt, st) => b.breakType == bt && b.startTime == st
    case UserTypeQ(u, bt) => b.userId == u && b.breakType == bt
    case UserQ(u) => b.userId == u
    case AnyActiveQ => true
  }

  /** `SELECT COUNT(*) FROM bookings WHERE q`. */
  function Count(rows: seq<Booking>, q: Query): (n: nat)
    ensures n <= |rows|
  {
    if rows == [] then 0
    else Count(rows[..|rows| - 1], q) + (if Selects(q, rows[|rows| - 1]) then 1 else 0)
  }

  /** The positions of the rows `q` matches. */
  function Matching(rows: seq<Booking>, q: Query): set<nat> {
    set i: nat | i < |rows| && Selects(q, rows[i])
  }

  /** `Count` is the number of rows the WHERE clause matches. */
  lemma {:induction false} CountIsRowCount(rows: seq<Booking>, q: Query)
    ensures Count(rows, q) == |Matching(rows, q)|
  {
    if rows != [] {
      var n := |rows| - 1;
      var front := rows[..n];
      CountIsRowCount(front, q);
      if Selects(q, rows[n]) {
        assert Matching(rows, q) == Matching(front, q) + {n};
      } else {
        assert Matching(rows, q) == Matching(front, q);
      }
    }
  }

  lemma CountAppend(rows: seq<Booking>, b: Booking, q: Query)
    ensures Count(rows + [b], q) == Count(rows, q) + (if Selects(q, b) then 1 else 0)
  {
    assert (rows + [b])[..|rows|] == rows;
  }

  /** Counting one more row of a prefix adds that row's match. */
  lemma CountPrefixStep(rows: seq<Booking>, i: nat, q: Query)
    requires i < |rows|
    ensures Count(rows[..i + 1], q) == Count(rows[..i], q) + (if Selects(q, rows[i]) then 1 else 0)
  {
    assert rows[..i + 1][..i] == rows[..i];
  }

  // ---------------------------------------------------------------- cancel-all

  function CancelRow(b: Booking, u: int): Booking {
    if b.userId == u && b.status == Active then b.(status := Cancelled) else b
  }

  /**
   * `UPDATE bookings SET status = 'cancelled' WHERE user_id = u AND status = 'active'`:
   * every row of `u` ends cancelled, no row is removed or added, and only the
   * status of `u`'s active rows changes.
   */
  function CancelUser(rows: seq<Booking>, u: int): (r: seq<Booking>)
    ensures |r| == |rows|
    ensures forall i :: 0 <= i < |r| && r[i].userId == u ==> r[i].status == Cancelled
    ensures forall i :: 0 <= i < |r| && !Selects(UserQ(u), rows[i]) ==> r[i] == rows[i]
    ensures forall i :: 0 <= i < |r| ==> r[i] == rows[i].(status := r[i].status)
  {
    seq(|rows|, i requires 0 <= i < |rows| => CancelRow(rows[i], u))
  }

  /**
   * Cancelling only lowers counts, leaves `u` with no active row, and lowers
   * the active total by exactly the number of rows it changed (the row count
   * the bot reports).
   */
  lemma {:induction false} CancelCounts(rows: seq<Booking>, u: int, q: Query)
    ensures Count(CancelUser(rows, u), q) <= Count(rows, q)
    ensures Count(CancelUser(rows, u), UserQ(u)) == 0
    ensures Count(CancelUser(rows, u), AnyActiveQ) + Count(rows, UserQ(u)) == Count(rows, AnyActiveQ)
  {
    if rows != [] {
      var n := |rows| - 1;
      CancelCounts(rows[..n], u, q);
      assert CancelUser(rows, u)[..n] == CancelUser(rows[..n], u);
    }
  }

  /** A second cancel-all straight after the first changes nothing and reports 0. */
  lemma CancelIdempotent(rows: seq<Booking>, u: int)
    ensures CancelUser(CancelUser(rows, u), u) == CancelUser(rows, u)
    ensures Count(CancelUser(rows, u), UserQ(u)) == 0
  {
    CancelCounts(rows, u, UserQ(u));
  }

  // ---------------------------------------------------------------- booking

  /** How `create_booking` ends; KeyError and ValueError in the source become outcomes. */
  datatype Outcome =
    | Booked(startTime: string, endTime: string)
    | SlotFull(current: nat, maxUsers: nat)
    | AlreadyBooked
    | UnknownBreak
    | MalformedTime

  /**
   * `create_booking(user, key, start)` on table `rows`, stamped `at`: look the
   * key up, reject a full slot, then reject a second active booking of the
   * same category, then parse the start time and append one active row.
   */
  function Book(rows: seq<Booking>, userId: int, key: string, startTime: string, at: Timestamp)
    : (res: (Outcome, seq<Booking>))
    ensures !res.0.Booked? ==> res.1 == rows
    ensures res.0.Booked? ==>
              && Lookup(key).Some?
              && Parse(startTime).Some?
              && |res.1| == |rows| + 1
              && res.1[..|rows|] == rows
              && res.1[|rows|] == Booking(|rows| + 1, userId, Lookup(key).value.name, startTime,
                                          res.0.endTime, Active, at)
              && res.0.startTime == startTime
              && Parse(res.0.endTime) == Some((Parse(startTime).value + Lookup(key).value.duration) % MinutesPerDay)
              && |res.0.endTime| == 5
  {
    match Lookup(key)
    case None => (UnknownBreak, rows)
    case Some(info) =>
      var current := Count(rows, SlotQ(info.name, startTime));
      if current >= info.maxUsers then (SlotFull(current, info.maxUsers), rows)
      else if Count(rows, UserTypeQ(userId, info.name)) > 0 then (AlreadyBooked, rows)
      else
        match EndTime(startTime, info.duration)
        case None => (MalformedTime, rows)
        case Some(endTime) =>
          assert (rows + [Booking(|rows| + 1, userId, info.name, startTime, endTime, Active, at)])[..|rows|] == rows;
          (Booked(startTime, endTime), rows + [Booking(|rows| + 1, userId, info.name, startTime, endTime, Active, at)])
  }

  /** An unknown key fails before the table is read or written. */
  lemma BookUnknownKey(rows: seq<Booking>, userId: int, key: string, startTime: string, at: Timestamp)
    requires key !in Keys
    ensures Book(rows, userId, key, startTime, at) == (UnknownBreak, rows)
  {
  }

  /**
   * A full slot is rejected with its count and capacity, and the table is
   * unchanged; this check comes first, so it wins even for a user who already
   * holds a booking of that category.
   */
  lemma BookFullSlot(rows: seq<Booking>, userId: int, key: string, startTime: string, at: Timestamp)
    requires Lookup(key).Some?
    requires Count(rows, SlotQ(Lookup(key).value.name, startTime)) >= Lookup(key).value.maxUsers
    ensures Book(rows, userId, key, startTime, at)
         == (SlotFull(Count(rows, SlotQ(Lookup(key).value.name, startTime)), Lookup(key).value.maxUsers), rows)
  {
  }

  /** A user with an active booking of the category cannot book it again while the slot has room. */
  lemma BookDuplicate(rows: seq<Booking>, userId: int, key: string, startTime: string, at: Timestamp)
    requires Lookup(key).Some?
    requires Count(rows, SlotQ(Lookup(key).value.name, startTime)) < Lookup(key).value.maxUsers
    requires Count(rows, UserTypeQ(userId, Lookup(key).value.name)) > 0
    ensures Book(rows, userId, key, startTime, at) == (AlreadyBooked, rows)
  {
  }

  /** A start time `strptime` rejects fails only after both checks have passed. */
  lemma BookMalformedTime(rows: seq<Booking>, userId: int, key: string, startTime: string, at: Timestamp)
    requires Lookup(key).Some?
    requires Count(rows, SlotQ(Lookup(key).value.name, startTime)) < Lookup(key).value.maxUsers
    requires Count(rows, UserTypeQ(userId, Lookup(key).value.name)) == 0
    requires Parse(startTime).None?
    ensures Book(rows, userId, key, startTime, at) == (MalformedTime, rows)
  {
  }

  /** A booking succeeds exactly when the key is known, the slot has room, the user has none, and the time parses. */
  lemma BookSucceeds(rows: seq<Booking>, userId: int, key: string, startTime: string, at: Timestamp)
    ensures Book(rows, userId, key, startTime, at).0.Booked? <==>
              && Lookup(key).Some?
              && Count(rows, SlotQ(Lookup(key).value.name, startTime)) < Lookup(key).value.maxUsers
              && Count(rows, UserTypeQ(userId, Lookup(key).value.name)) == 0
              && Parse(startTime).Some?
  {
  }

  /** A successful booking raises the active total by one; a rejection leaves it. */
  lemma BookActiveTotal(rows: seq<Booking>, userId: int, key: string, startTime: string, at: Timestamp)
    ensures Count(Book(rows, userId, key, startTime, at).1, AnyActiveQ)
         == Count(rows, AnyActiveQ) + (if Book(rows, userId, key, startTime, at).0.Booked? then 1 else 0)
  {
    var (outcome, after) := Book(rows, userId, key, startTime, at);
    if outcome.Booked? {
      assert after == rows + [after[|rows|]];
      CountAppend(rows, after[|rows|], AnyActiveQ);
    }
  }

  // ---------------------------------------------------------------- invariants

  /** Row `b` is the booking with id `id`, of a known category, with the end time its category implies. */
  ghost predicate RowConsistent(b: Booking, id: nat) {
    && b.id == id
    && ByName(b.breakType).Some?
    && EndTime(b.startTime, ByName(b.breakType).value.duration) == Some(b.endTime)
  }

  ghost predicate WellFormed(rows: seq<Booking>) {
    forall i :: 0 <= i < |rows| ==> RowConsistent(rows[i], i + 1)
  }

  /** At most `max_users` active rows per (category name, start time). */
  ghost predicate CapacityRespected(rows: seq<Booking>) {
    forall bt, st :: Count(rows, SlotQ(bt, st)) <= CapacityOfName(bt)
  }

  /** At most one active row per (user, category name). */
  ghost predicate NoDuplicates(rows: seq<Booking>) {
    forall u, bt :: Count(rows, UserTypeQ(u, bt)) <= 1
  }

  ghost predicate Invariants(rows: seq<Booking>) {
    WellFormed(rows) && CapacityRespected(rows) && NoDuplicates(rows)
  }

  /**
   * The table only grows and a row only ever goes from active to cancelled:
   * no row is deleted, rewritten or reactivated.
   */
  ghost predicate Evolves(before: seq<Booking>, after: seq<Booking>) {
    && |before| <= |after|
    && forall i :: 0 <= i < |before| ==>
         after[i] == before[i] || (before[i].status == Active && after[i] == before[i].(status := Cancelled))
  }

  lemma EvolvesTransitive(a: seq<Booking>, b: seq<Booking>, c: seq<Booking>)
    requires Evolves(a, b) && Evolves(b, c)
    ensures Evolves(a, c)
  {
  }

  lemma EmptyTableInvariants()
    ensures Invariants([])
  {
  }

  /** A booking keeps both invariants and the table only grows. */
  lemma BookPreservesInvariants(rows: seq<Booking>, userId: int, key: string, startTime: string, at: Timestamp)
    requires Invariants(rows)
    ensures Invariants(Book(rows, userId, key, startTime, at).1)
    ensures Evolves(rows, Book(rows, userId, key, startTime, at).1)
  {
    var (outcome, after) := Book(rows, userId, key, startTime, at);
    if outcome.Booked? {
      var info := Lookup(key).value;
      var b := after[|rows|];
      assert after == rows + [b];
      NameIdentifiesKey(key, key);
      assert RowConsistent(b, |rows| + 1);
      forall bt, st
        ensures Count(after, SlotQ(bt, st)) <= CapacityOfName(bt)
      {
        CountAppend(rows, b, SlotQ(bt, st));
      }
      forall u, bt
        ensures Count(after, UserTypeQ(u, bt)) <= 1
      {
        CountAppend(rows, b, UserTypeQ(u, bt));
      }
    }
  }

  /** Cancel-all keeps both invariants: it only lowers counts and changes no other field. */
  lemma CancelPreservesInvariants(rows: seq<Booking>, u: int)
    requires Invariants(rows)
    ensures Invariants(CancelUser(rows, u))
    ensures Evolves(rows, CancelUser(rows, u))
  {
    var after := CancelUser(rows, u);
    forall i | 0 <= i < |after|
      ensures RowConsistent(after[i], i + 1)
    {
      assert RowConsistent(rows[i], i + 1);
    }
    forall bt, st
      ensures Count(after, SlotQ(bt, st)) <= CapacityOfName(bt)
    {
      CancelCounts(rows, u, SlotQ(bt, st));
    }
    forall v, bt
      ensures Count(after, UserTypeQ(v, bt)) <= 1
    {
      CancelCounts(rows, u, UserTypeQ(v, bt));
    }
  }

  // ---------------------------------------------------------------- request sequences

  /** One write the bot makes to the table. */
  datatype Request =
    | BookRequest(userId: int, key: string, startTime: string, at: Timestamp)
    | CancelRequest(userId: int)

  function Apply(rows: seq<Booking>, req: Request): seq<Booking> {
    match req
    case BookRequest(u, key, st, at) => Book(rows, u, key, st, at).1
    case CancelRequest(u) => CancelUser(rows, u)
  }

  function Replay(rows: seq<Booking>, reqs: seq<Request>): seq<Booking>
    decreases |reqs|
  {
    if reqs == [] then rows else Replay(Apply(rows, reqs[0]), reqs[1..])
  }

  /**
   * Any sequence of bookings and cancellations, applied one after another,
   * keeps capacity, no-duplicates and row consistency, and only ever appends
   * rows or cancels active ones.
   */
  lemma {:induction false} ReplayPreservesInvariants(rows: seq<Booking>, reqs: seq<Request>)
    requires Invariants(rows)
    ensures Invariants(Replay(rows, reqs))
    ensures Evolves(rows, Replay(rows, reqs))
    decreases |reqs|
  {
    if reqs != [] {
      var next := Apply(rows, reqs[0]);
      match reqs[0] {
        case BookRequest(u, key, st, at) => BookPreservesInvariants(rows, u, key, st, at);
        case CancelRequest(u) => CancelPreservesInvariants(rows, u);
      }
      ReplayPreservesInvariants(next, reqs[1..]);
      EvolvesTransitive(rows, next, Replay(next, reqs[1..]));
    }
  }
}

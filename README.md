# Break-queue booking engine, modelled in Dafny

This project models the booking core of a Telegram bot that keeps a queue for
workplace breaks. There are two break categories:

- lunch: 45 minutes, at most 5 people per start time;
- smoke break: 10 minutes, at most 3 people per start time.

A user picks one of eight half-hour start times. The bot refuses a start time
that is already full. It also refuses a second active booking of the same
category for the same user. It stores the booking with an end time computed
from the category's duration. A user can cancel all of their bookings at once.

The SQLite tables become sequences of rows held by a `QueueDb` object. The
operations that write to the tables are methods on that object. Each method is
proved against a pure function on rows, and the source's promises are proved
about those functions:

- the capacity invariant;
- the no-duplicates invariant;
- end times that match the start time and duration;
- rows that are only appended or cancelled;
- idempotent cancel-all and registration;
- the round trip between `strptime` and `strftime`.

Files, one module each:

- `basics.dfy`: `Option` and `Timestamp`, a string the model never inspects.
- `time_of_day.dfy`: minutes of the day, `strftime("%H:%M")`, `strptime(_, "%H:%M")` and end-time arithmetic, which wraps at midnight.
- `break_types.dfy`: the `BREAK_TYPES` table, looked up by key and by display name.
- `text_order.dfy`: the order SQLite's BINARY collation gives to TEXT.
- `slot_clock.dfy`: the eight offered start times.
- `booking_table.dfy`: the `bookings` table, its WHERE-clause counts, cancel-all, booking, the invariants and their preservation over any sequence of requests.
- `booking_queries.dfy`: a user's active bookings, ordered by start time.
- `user_table.dfy`: the `users` table and insert-or-ignore.
- `queue_db.dfy`: the `QueueDb` class with its in-place operations and the time picker.
- `scenarios.dfy`: worked examples.

Notes on the code's behaviour:

- Rows store the category's display name (for example "🍽 Обед"). The code counts, checks duplicates and inserts by that name (bot.py.py:92, 101, 113). The two names are distinct, so a name identifies its key (`BreakTypes.NameIdentifiesKey`).
- An unknown key raises `KeyError`, and a start time `strptime` rejects raises `ValueError`. Both are modelled as outcomes (`UnknownBreak`, `MalformedTime`) that leave the table unchanged. The time is parsed only after the full-slot and duplicate checks. So a malformed time can still be rejected as full or as a duplicate first.
- A slot is identified by its start-time TEXT, as in the SQL. "12:0" and "12:00" parse to the same minute but count as different slots. The time picker only ever offers canonical "HH:MM" texts (`SlotClock.OfferableSlots`, `TimeOfDay.FormatParse`).

## Model

| member | source | states |
|---|---|---|
| `TimeOfDay.Format` | bot.py.py:109 | `strftime("%H:%M")` gives five characters: two digits, a colon, two digits |
| `TimeOfDay.Parse` | bot.py.py:107 | `strptime(s, "%H:%M")` succeeds exactly when `s` is an hour field (1 digit, `[01]`+digit, or `2[0-3]`), a colon and a minute field (1 digit or `[0-5]`+digit) with nothing left over; the value is hours·60 + minutes |
| `TimeOfDay.ParseFormat` | bot.py.py:107-109 | reading back a formatted time gives the same minute |
| `TimeOfDay.FormatInjective` | bot.py.py:109 | two different minutes never format to the same text |
| `TimeOfDay.FormatParse` | bot.py.py:107-109 | a five-character text that parses is exactly the formatted form of its minute |
| `TimeOfDay.EndTime` | bot.py.py:107-109 | the end time exists exactly when the start parses; it is five characters long (zero-padded HH:MM) and reads back as (start + duration) mod 1440 |
| `BreakTypes.Lookup` | bot.py.py:12-15 | exactly the keys `lunch` and `smoke` are known; each has a positive duration and capacity |
| `BreakTypes.NameIdentifiesKey` | bot.py.py:12-15 | two keys have the same display name only if they are the same key, and the name leads back to the key's entry |
| `TextOrder.TextLeqTotal` | bot.py.py:82 | any two texts are comparable in the `ORDER BY` order |
| `TextOrder.TextLeqTransitive` | bot.py.py:82 | the `ORDER BY` order is transitive |
| `SlotClock.SlotMinutesDistinct` | bot.py.py:207-208 | the eight slot minutes now + 30·i (mod 1440) are pairwise different |
| `SlotClock.OfferableSlots` | bot.py.py:205-209 | exactly 8 slots; slot i is a five-character text that reads back as (now + 30·i) mod 1440; no two slots are equal |
| `BookingTable.Count` | bot.py.py:67-75 | a count never exceeds the number of rows |
| `BookingTable.CountIsRowCount` | bot.py.py:70-73 | `Count` equals the number of rows the WHERE clause (active, plus type/start, user/type, or user) matches |
| `BookingTable.CountAppend` | bot.py.py:111-113 | appending a row raises a count by one exactly when the row matches |
| `BookingTable.CancelUser` | bot.py.py:271-272 | row count unchanged; every row of the user ends cancelled; rows the WHERE clause does not match are untouched; only the status field ever changes |
| `BookingTable.CancelCounts` | bot.py.py:271-273 | cancel-all never raises any count; it leaves the user with no active row; the active total drops by exactly the number of rows it changed |
| `BookingTable.CancelIdempotent` | bot.py.py:271-273 | cancelling again straight away changes nothing and reports 0 |
| `BookingTable.Book` | bot.py.py:87-117 | a rejection leaves the table unchanged; a success appends exactly one row with the next id, the user, the category name, the start time, status active, the timestamp and a five-character end time that reads back as (start + duration) mod 1440 (zero-padded HH:MM), and keeps every earlier row |
| `BookingTable.BookUnknownKey` | bot.py.py:89 | an unknown key fails with the table unchanged |
| `BookingTable.BookFullSlot` | bot.py.py:91-94 | a slot whose active count has reached capacity is rejected with that count and capacity, even when the user also holds a booking of that category; the table is unchanged |
| `BookingTable.BookDuplicate` | bot.py.py:96-104 | when the slot has room, a user with an active booking of the category is rejected; the table is unchanged |
| `BookingTable.BookMalformedTime` | bot.py.py:107 | a start time `strptime` rejects fails after both checks pass, with the table unchanged |
| `BookingTable.BookSucceeds` | bot.py.py:87-117 | booking succeeds if and only if the key is known, the slot has room, the user has no active booking of the category and the time parses |
| `BookingTable.BookActiveTotal` | bot.py.py:111-113 | a success raises the active total by one; a rejection leaves it |
| `BookingTable.EmptyTableInvariants` | bot.py.py:28-35 | the freshly created empty table satisfies every invariant |
| `BookingTable.BookPreservesInvariants` | bot.py.py:91-113 | booking preserves row consistency, capacity (active per name and start ≤ max_users) and no-duplicates (active per user and name ≤ 1), and only appends |
| `BookingTable.CancelPreservesInvariants` | bot.py.py:271-272 | cancel-all preserves the same invariants and only turns active rows into cancelled ones |
| `BookingTable.ReplayPreservesInvariants` | bot.py.py:92-272 | any sequence of bookings (lines 92-113) and cancel-alls (lines 271-272), one after another, keeps every invariant; rows are never deleted or reactivated |
| `BookingQueries.ActiveEntries` | bot.py.py:80-83 | the listing has one entry per active row of the user: each (type, start, end) appears exactly as many times as the user's active rows showing it, and nothing else appears |
| `BookingQueries.InsertByStart` | bot.py.py:82 | insertion adds exactly the one entry |
| `BookingQueries.InsertByStartSorted` | bot.py.py:82 | inserting into a sorted listing keeps it sorted |
| `BookingQueries.SortByStart` | bot.py.py:82 | sorting is a permutation |
| `BookingQueries.SortByStartSorted` | bot.py.py:82 | the sorted listing is in start-time order |
| `BookingQueries.UserBookings` | bot.py.py:77-85 | the user's active bookings, sorted by start time, a permutation of the matching rows, as many as the active count |
| `BookingQueries.NoBookingsAfterCancel` | bot.py.py:271-272 | after cancel-all the user's listing is empty |
| `UserTable.InsertOrIgnore` | bot.py.py:61-63 | a known id leaves the table unchanged, a new one appends the row; the id is known afterwards; ids stay unique |
| `UserTable.RegisterIdempotent` | bot.py.py:61-63 | registering the same id again, with any name or timestamp, is a no-op |
| `UserTable.RegisterGrowth` | bot.py.py:61-63 | registration adds one row exactly when the id was new |
| `BreakQueue.QueueDb.constructor` | bot.py.py:22-35 | the tables start empty and valid |
| `BreakQueue.QueueDb.RegisterUser` | bot.py.py:58-65 | the users table becomes the insert-or-ignore of the new row; bookings unchanged; invariants kept |
| `BreakQueue.QueueDb.CreateBooking` | bot.py.py:87-117 | the outcome and the new bookings table are those of `Book`; invariants kept; the table only grows; users unchanged |
| `BreakQueue.QueueDb.CancelAll` | bot.py.py:268-275 | the bookings table becomes `CancelUser` of the old one; the returned count is the old number of the user's active rows; invariants kept |
| `BreakQueue.CancelRows` | bot.py.py:271-273 | the row scan of the UPDATE yields `CancelUser` and the number of rows it changed |
| `BreakQueue.QueueDb.Stats` | bot.py.py:281-288 | the statistics are the number of users and the number of rows still marked active |
| `BreakQueue.QueueDb.TimeSelection` | bot.py.py:200-221 | unknown key fails; otherwise 8 distinct buttons, slot i reading back as (now + 30·i) mod 1440, each marked full if and only if its active count ≥ max_users; full slots stay listed |
| `BreakQueue.SlotMarkAgreesWithBooking` | bot.py.py:213-220 | a slot shown full is rejected as full; a slot shown free is booked for a user with no active booking of that category, ending `duration` minutes later |
| `Scenarios.SlotTexts` | bot.py.py:207-209 | from 09:00 the slots begin 09:00, 09:30, 10:00, 10:30; from 23:45 the second slot is 00:15 |
| `Scenarios.LunchAcrossMidnight` | bot.py.py:107-109 | a lunch at 23:30 ends at 00:15 |
| `Scenarios.OneDigitFields` | bot.py.py:107 | "9:5" is accepted as 09:05 and a smoke break then ends at 09:15 |
| `Scenarios.HourOutOfRange` | bot.py.py:107 | "24:00" is rejected |
| `Scenarios.SmokeBooked` | bot.py.py:106-113 | a user with no smoke break booked gets a well-formed slot that has room; the row ends 10 minutes later |
| `Scenarios.ThreeSmokersBooked` | bot.py.py:91-113 | after three users book the same smoke slot, it holds three active rows, one of them user 1's |
| `Scenarios.SmokeSlotFills` | bot.py.py:91-104 | a fourth user then gets "3/3 full"; the first user cannot book a second smoke break at another time |

## Left out

- Telegram handlers, keyboards, reply texts, Markdown and emoji formatting (bot.py.py:42-55, 120-295 outside the logic above): user interface and calls into a foreign library.
- The callback-string dispatch of `button_handler` (bot.py.py:239-249). It only splits `book_<key>_<time>` and passes the key and time to `create_booking`, which is modelled.
- SQLite connections, `init_db`'s file handling, `main`, token loading and logging (bot.py.py:18-39, 298-329): input/output plumbing. The tables are in-memory sequences, and a fresh `QueueDb` stands for a newly created database file.
- `datetime.now()`: the current minute of the day and the `registered_at`/`created_at` stamps are parameters. Stamps are strings the model never inspects.
- Concurrency: `create_booking` counts and inserts over separate connections, so two concurrent requests can both pass the capacity check. The model runs each call as one sequential step and claims nothing about interleavings.
- `show_my_bookings` and `show_queue` (bot.py.py:140-198): display views. Their hard-coded capacities 5/3 and their grouping by the substring "Обед" are presentation. The joined global listing is not modelled.
- SQLite storage errors (a locked or unreadable database file) are not modelled: every table operation succeeds.
- Python exceptions: `KeyError` and `ValueError` from `create_booking` become outcomes. What the handler does with an uncaught exception is not modelled.
- TimeOfDay.Parse: accepts ASCII digits only. Python's `\d` in `strptime` also accepts other Unicode decimal digits.
- BookingQueries.UserBookings: SQL leaves the order of rows with equal start times unspecified. The model keeps table order among them.

/**
 * The read-only listings over the booking table: a user's active bookings in
 * start-time order (`get_user_bookings`) and the active total of the
 * statistics view.
 */
module BookingQueries {
  import opened BookingTable
  import opened TextOrder

  /** The three columns `get_user_bookings` selects. */
  datatype Entry = Entry(breakType: string, startTime: string, endTime: string)

  function EntryOf(b: Booking): Entry {
    Entry(b.breakType, b.startTime, b.endTime)
  }

  /** The positions of the user's active rows that project to `e`. */
  function RowsShowing(rows: seq<Booking>, u: int, e: Entry): set<nat> {
    set i: nat | i < |rows| && Selects(UserQ(u), rows[i]) && EntryOf(rows[i]) == e
  }

  /** The last row adds its own position to the rows showing `e`, if it shows `e`. */
  lemma RowsShowingStep(rows: seq<Booking>, u: int, e: Entry)
    requires rows != []
    ensures var n := |rows| - 1;
            |RowsShowing(rows, u, e)|
            == |RowsShowing(rows[..n], u, e)| + (if Selects(UserQ(u), rows[n]) && EntryOf(rows[n]) == e then 1 else 0)
  {
    var n := |rows| - 1;
    if Selects(UserQ(u), rows[n]) && EntryOf(rows[n]) == e {
      assert RowsShowing(rows, u, e) == RowsShowing(rows[..n], u, e) + {n};
    } else {
      assert RowsShowing(rows, u, e) == RowsShowing(rows[..n], u, e);
    }
  }

  /**
   * `WHERE user_id = u AND status = 'active'`, in table order, projected to
   * the three columns: each entry appears once per active row of the user
   * that shows it, and nothing else appears.
   */
  function ActiveEntries(rows: seq<Booking>, u: int): (r: seq<Entry>)
    ensures |r| == Count(rows, UserQ(u))
    ensures forall e :: multiset(r)[e] == |RowsShowing(rows, u, e)|
    ensures forall e :: e in r <==> exists i :: 0 <= i < |rows| && Selects(UserQ(u), rows[i]) && EntryOf(rows[i]) == e
  {
    if rows == [] then []
    else
      var n := |rows| - 1;
      var front := ActiveEntries(rows[..n], u);
      assert forall i :: 0 <= i < n ==> rows[..n][i] == rows[i];
      assert forall e :: |RowsShowing(rows, u, e)|
                      == |RowsShowing(rows[..n], u, e)| + (if Selects(UserQ(u), rows[n]) && EntryOf(rows[n]) == e then 1 else 0) by {
        forall e
          ensures |RowsShowing(rows, u, e)|
               == |RowsShowing(rows[..n], u, e)| + (if Selects(UserQ(u), rows[n]) && EntryOf(rows[n]) == e then 1 else 0)
        {
          RowsShowingStep(rows, u, e);
        }
      }
      if Selects(UserQ(u), rows[n]) then front + [EntryOf(rows[n])] else front
  }

  ghost predicate SortedByStart(s: seq<Entry>) {
    forall i, j :: 0 <= i < j < |s| ==> TextLeq(s[i].startTime, s[j].startTime)
  }

  /** Puts `e` after every leading entry that does not start later than it. */
  function InsertByStart(e: Entry, s: seq<Entry>): (r: seq<Entry>)
    ensures multiset(r) == multiset(s) + multiset{e}
  {
    if s == [] then [e]
    else if TextLeq(s[0].startTime, e.startTime) then
      assert s == [s[0]] + s[1..];
      [s[0]] + InsertByStart(e, s[1..])
    else [e] + s
  }

  /** A listing is sorted when its head starts no later than anything after it and its tail is sorted. */
  lemma SortedCons(x: Entry, s: seq<Entry>)
    requires SortedByStart(s)
    requires forall k :: 0 <= k < |s| ==> TextLeq(x.startTime, s[k].startTime)
    ensures SortedByStart([x] + s)
  {
    var r := [x] + s;
    forall i, j | 0 <= i < j < |r|
      ensures TextLeq(r[i].startTime, r[j].startTime)
    {
      assert r[j] == s[j - 1];
      if i > 0 {
        assert r[i] == s[i - 1];
      }
    }
  }

  /** Whatever `InsertByStart` returns came from `s` or is `e`. */
  lemma InsertByStartFrom(e: Entry, s: seq<Entry>, k: nat)
    requires k < |InsertByStart(e, s)|
    ensures InsertByStart(e, s)[k] == e || InsertByStart(e, s)[k] in s
  {
    var y := InsertByStart(e, s)[k];
    assert y in multiset(InsertByStart(e, s));
  }

  /** Inserting into a sorted listing keeps it sorted. */
  lemma {:induction false} InsertByStartSorted(e: Entry, s: seq<Entry>)
    requires SortedByStart(s)
    ensures SortedByStart(InsertByStart(e, s))
  {
    if s == [] {
    } else if TextLeq(s[0].startTime, e.startTime) {
      var rest := InsertByStart(e, s[1..]);
      InsertByStartSorted(e, s[1..]);
      assert SortedByStart(s[1..]) by {
        forall i, j | 0 <= i < j < |s[1..]|
          ensures TextLeq(s[1..][i].startTime, s[1..][j].startTime)
        {
          assert s[1..][i] == s[i + 1] && s[1..][j] == s[j + 1];
        }
      }
      forall k | 0 <= k < |rest|
        ensures TextLeq(s[0].startTime, rest[k].startTime)
      {
        InsertByStartFrom(e, s[1..], k);
        if rest[k] != e {
          var m :| 0 <= m < |s[1..]| && s[1..][m] == rest[k];
          assert rest[k] == s[m + 1];
        }
      }
      SortedCons(s[0], rest);
    } else {
      TextLeqTotal(s[0].startTime, e.startTime);
      forall k | 0 < k < |s|
        ensures TextLeq(e.startTime, s[k].startTime)
      {
        TextLeqTransitive(e.startTime, s[0].startTime, s[k].startTime);
      }
      SortedCons(e, s);
    }
  }

  /** `ORDER BY start_time`, keeping table order among equal start times. */
  function SortByStart(s: seq<Entry>): (r: seq<Entry>)
    ensures multiset(r) == multiset(s)
  {
    if s == [] then []
    else
      assert s == s[..|s| - 1] + [s[|s| - 1]];
      InsertByStart(s[|s| - 1], SortByStart(s[..|s| - 1]))
  }

  lemma {:induction false} SortByStartSorted(s: seq<Entry>)
    ensures SortedByStart(SortByStart(s))
  {
    if s != [] {
      SortByStartSorted(s[..|s| - 1]);
      InsertByStartSorted(s[|s| - 1], SortByStart(s[..|s| - 1]));
    }
  }

  /**
   * `get_user_bookings(u)`: the user's active bookings ordered by start time,
   * each active row of `u` exactly once.
   */
  function UserBookings(rows: seq<Booking>, u: int): (r: seq<Entry>)
    ensures SortedByStart(r)
    ensures multiset(r) == multiset(ActiveEntries(rows, u))
    ensures |r| == Count(rows, UserQ(u))
  {
    var r := SortByStart(ActiveEntries(rows, u));
    SortByStartSorted(ActiveEntries(rows, u));
    assert |r| == |multiset(r)|;
    r
  }

  /** After cancel-all the user's listing is empty. */
  lemma NoBookingsAfterCancel(rows: seq<Booking>, u: int)
    ensures UserBookings(CancelUser(rows, u), u) == []
  {
    CancelCounts(rows, u, UserQ(u));
  }
}

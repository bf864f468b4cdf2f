/** The `users` table: one row per Telegram user id, written only by insert-or-ignore. */
module UserTable {
  import opened Basics

  datatype User = User(userId: int, username: Option<string>, fullName: string, registeredAt: Timestamp)

  predicate Known(users: seq<User>, id: int) {
    exists i :: 0 <= i < |users| && users[i].userId == id
  }

  /** `user_id` is the primary key. */
  ghost predicate UniqueIds(users: seq<User>) {
    forall i, j :: 0 <= i < j < |users| ==> users[i].userId != users[j].userId
  }

  /**
   * `INSERT OR IGNORE INTO users`: a known id leaves the table as it is,
   * otherwise the row is added; either way the id is known afterwards and
   * ids stay unique.
   */
  function InsertOrIgnore(users: seq<User>, row: User): (r: seq<User>)
    ensures Known(r, row.userId)
    ensures Known(users, row.userId) ==> r == users
    ensures !Known(users, row.userId) ==> r == users + [row]
    ensures UniqueIds(users) ==> UniqueIds(r)
  {
    if Known(users, row.userId) then users
    else
      assert (users + [row])[|users|].userId == row.userId;
      users + [row]
  }

  /**
   * Registering the same id again, whatever its name or stamp, is a no-op: the
   * first registration's row stays.
   */
  lemma RegisterIdempotent(users: seq<User>, first: User, again: User)
    requires first.userId == again.userId
    ensures InsertOrIgnore(InsertOrIgnore(users, first), again) == InsertOrIgnore(users, first)
  {
  }

  /** Registration adds at most one row, and one exactly when the id was new. */
  lemma RegisterGrowth(users: seq<User>, row: User)
    ensures |InsertOrIgnore(users, row)| == |users| + (if Known(users, row.userId) then 0 else 1)
  {
  }
}

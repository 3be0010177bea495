/** The transactions table's operations: append, the joined reads (by id,
    most recent, per user) with their ORDER BY and LIMIT, count and clear. */
module TransactionService {
  import opened Wrappers
  import opened Money
  import opened UserModel
  import opened TransactionModel
  import opened Storage

  /** `_get_row_value`: the column's value when the row has it, else `default`. */
  function GetRowValue<V>(row: map<string, V>, key: string, default: V): (r: V)
    ensures key in row ==> r == row[key]
    ensures key !in row ==> r == default
  {
    if key in row then row[key] else default
  }

  /** One row of `transactions JOIN users u1 JOIN users u2`, converted by
      `_row_to_transaction`: present only when both parties are still stored. */
  function JoinRow(row: TxRow, users: map<int, User>): (r: Option<Transaction>)
    ensures r.Some? <==> row.fromUserId in users && row.toUserId in users
    ensures r.Some? ==>
      && r.value.id == row.id
      && r.value.fromUserId == row.fromUserId && r.value.toUserId == row.toUserId
      && r.value.amount == row.amount
      && r.value.balanceFrom == row.balanceFrom && r.value.balanceTo == row.balanceTo
      && r.value.fromUserName == Some(users[row.fromUserId].name)
      && r.value.toUserName == Some(users[row.toUserId].name)
  {
    if row.fromUserId in users && row.toUserId in users then
      var columns := map["from_user_name" := users[row.fromUserId].name,
                         "to_user_name" := users[row.toUserId].name];
      Some(Transaction(row.id, row.fromUserId, row.toUserId, row.amount,
                       row.balanceFrom, row.balanceTo, Some(row.createdAt),
                       Some(GetRowValue(columns, "from_user_name", "")),
                       Some(GetRowValue(columns, "to_user_name", ""))))
    else None
  }

  function Joined(row: TxRow, users: map<int, User>): seq<Transaction>
  {
    match JoinRow(row, users)
    case Some(t) => [t]
    case None => []
  }

  /** The joined rows, newest first (`ORDER BY created_at DESC`, with the
      insertion order standing in for the timestamp). */
  function NewestFirst(rows: seq<TxRow>, users: map<int, User>): seq<Transaction>
    decreases |rows|
  {
    if rows == [] then []
    else Joined(rows[|rows| - 1], users) + NewestFirst(rows[..|rows| - 1], users)
  }

  /** SQLite's `LIMIT n`: at most n rows, and no limit for a negative n. */
  function Take<T>(s: seq<T>, limit: int): (r: seq<T>)
    ensures r <= s
    ensures |r| == if 0 <= limit < |s| then limit else |s|
  {
    if 0 <= limit < |s| then s[..limit] else s
  }

  predicate Involves(t: Transaction, userId: int)
  {
    t.fromUserId == userId || t.toUserId == userId
  }

  /** `WHERE from_user_id = ? OR to_user_id = ?`, keeping the order. */
  function Involving(ts: seq<Transaction>, userId: int): (r: seq<Transaction>)
    decreases |ts|
  {
    if ts == [] then []
    else (if Involves(ts[0], userId) then [ts[0]] else []) + Involving(ts[1..], userId)
  }

  ghost predicate Descending(ts: seq<Transaction>)
  {
    forall i, j | 0 <= i < j < |ts| :: ts[i].id > ts[j].id
  }

  /** `t` is the joined form of some stored row. */
  ghost predicate Logged(rows: seq<TxRow>, users: map<int, User>, t: Transaction)
  {
    exists i | 0 <= i < |rows| :: JoinRow(rows[i], users) == Some(t)
  }

  lemma {:induction false} NewestFirstBelow(rows: seq<TxRow>, users: map<int, User>, bound: int)
    requires forall i | 0 <= i < |rows| :: rows[i].id < bound
    ensures forall j | 0 <= j < |NewestFirst(rows, users)| :: NewestFirst(rows, users)[j].id < bound
    decreases |rows|
  {
    if rows != [] {
      NewestFirstBelow(rows[..|rows| - 1], users, bound);
    }
  }

  /** Newest-first lists only joined forms of stored rows. */
  lemma {:induction false} NewestFirstSound(rows: seq<TxRow>, users: map<int, User>)
    ensures forall t | t in NewestFirst(rows, users) :: Logged(rows, users, t)
    decreases |rows|
  {
    if rows != [] {
      var init := rows[..|rows| - 1];
      NewestFirstSound(init, users);
      var nf := NewestFirst(rows, users);
      forall t | t in nf
        ensures Logged(rows, users, t)
      {
        if t in Joined(rows[|rows| - 1], users) {
          assert JoinRow(rows[|rows| - 1], users) == Some(t);
        } else {
          assert t in NewestFirst(init, users);
          var i :| 0 <= i < |init| && JoinRow(init[i], users) == Some(t);
          assert rows[i] == init[i];
        }
      }
    }
  }

  /** Newest-first lists every stored row whose two parties are still stored. */
  lemma {:induction false} NewestFirstComplete(rows: seq<TxRow>, users: map<int, User>)
    ensures forall i | 0 <= i < |rows| && JoinRow(rows[i], users).Some? ::
      JoinRow(rows[i], users).value in NewestFirst(rows, users)
    decreases |rows|
  {
    if rows != [] {
      var init := rows[..|rows| - 1];
      NewestFirstComplete(init, users);
      forall i | 0 <= i < |rows| && JoinRow(rows[i], users).Some?
        ensures JoinRow(rows[i], users).value in NewestFirst(rows, users)
      {
        if i < |init| {
          assert rows[i] == init[i];
        }
      }
    }
  }

  /** When every party of every row still exists, the join drops nothing:
      the history is the whole log, reversed. */
  lemma {:induction false} NewestFirstReverses(rows: seq<TxRow>, users: map<int, User>)
    requires forall i | 0 <= i < |rows| :: rows[i].fromUserId in users && rows[i].toUserId in users
    ensures |NewestFirst(rows, users)| == |rows|
    ensures forall j | 0 <= j < |rows| :: NewestFirst(rows, users)[j] == JoinRow(rows[|rows| - 1 - j], users).value
    decreases |rows|
  {
    if rows != [] {
      var init := rows[..|rows| - 1];
      NewestFirstReverses(init, users);
    }
  }

  /** When ids grow along the log, newest-first has decreasing ids. */
  lemma {:induction false} NewestFirstDescending(rows: seq<TxRow>, users: map<int, User>)
    requires forall i, j | 0 <= i < j < |rows| :: rows[i].id < rows[j].id
    ensures Descending(NewestFirst(rows, users))
    decreases |rows|
  {
    if rows != [] {
      var init := rows[..|rows| - 1];
      NewestFirstDescending(init, users);
      NewestFirstBelow(init, users, rows[|rows| - 1].id);
    }
  }

  /** `get_by_id`: the joined transaction with that id, if its row exists and
      both parties are still stored. */
  function GetById(db: Database, transactionId: int): (r: Option<Transaction>)
    reads db
    requires db.Valid()
    ensures r.Some? ==> r.value.id == transactionId && Logged(db.log, db.users, r.value)
    ensures r.None? ==> forall i | 0 <= i < |db.log| && db.log[i].id == transactionId ::
      JoinRow(db.log[i], db.users).None?
  {
    FindRow(db.log, db.users, transactionId)
  }

  function FindRow(rows: seq<TxRow>, users: map<int, User>, transactionId: int): (r: Option<Transaction>)
    ensures r.Some? ==> r.value.id == transactionId && Logged(rows, users, r.value)
    ensures r.None? ==> forall i | 0 <= i < |rows| && rows[i].id == transactionId ::
      JoinRow(rows[i], users).None?
    decreases |rows|
  {
    if rows == [] then None
    else if rows[0].id == transactionId && JoinRow(rows[0], users).Some? then
      JoinRow(rows[0], users)
    else
      var r := FindRow(rows[1..], users, transactionId);
      assert r.Some? ==> Logged(rows, users, r.value) by {
        if r.Some? {
          var i :| 0 <= i < |rows[1..]| && JoinRow(rows[1..][i], users) == Some(r.value);
          assert JoinRow(rows[i + 1], users) == Some(r.value);
        }
      }
      r
  }

  /** `get_recent`: at most `limit` (none for a negative limit) of the
      joined transactions, newest first. */
  function GetRecent(db: Database, limit: int): (r: seq<Transaction>)
    reads db
    requires db.Valid()
    ensures 0 <= limit ==> |r| <= limit
    ensures Descending(r)
    ensures forall t | t in r :: Logged(db.log, db.users, t)
    ensures r <= NewestFirst(db.log, db.users)
    ensures 0 <= limit ==> |r| == if limit < |NewestFirst(db.log, db.users)| then limit
                                  else |NewestFirst(db.log, db.users)|
    ensures limit < 0 ==> r == NewestFirst(db.log, db.users)
    ensures var all := NewestFirst(db.log, db.users);
      forall i, j | 0 <= i < |r| <= j < |all| :: all[j].id < r[i].id
    ensures limit < 0 ==> forall i | 0 <= i < |db.log| && JoinRow(db.log[i], db.users).Some? ::
      JoinRow(db.log[i], db.users).value in r
  {
    NewestFirstSound(db.log, db.users);
    NewestFirstComplete(db.log, db.users);
    NewestFirstDescending(db.log, db.users);
    Take(NewestFirst(db.log, db.users), limit)
  }

  lemma {:induction false} InvolvingFacts(ts: seq<Transaction>, userId: int)
    ensures forall t | t in Involving(ts, userId) :: t in ts && Involves(t, userId)
    ensures forall t | t in ts && Involves(t, userId) :: t in Involving(ts, userId)
    ensures Descending(ts) ==> Descending(Involving(ts, userId))
    decreases |ts|
  {
    if ts != [] {
      InvolvingFacts(ts[1..], userId);
      var r := Involving(ts, userId);
      assert r == (if Involves(ts[0], userId) then [ts[0]] else []) + Involving(ts[1..], userId);
      forall t | t in ts && Involves(t, userId)
        ensures t in r
      {
        if t != ts[0] {
          assert t in ts[1..];
        }
      }
      if Descending(ts) {
        assert Descending(ts[1..]);
        forall j | 0 <= j < |Involving(ts[1..], userId)|
          ensures Involving(ts[1..], userId)[j].id < ts[0].id
        {
          assert Involving(ts[1..], userId)[j] in ts[1..];
        }
      }
    }
  }

  /** `get_by_user`: at most `limit` of the joined transactions in which the
      user is sender or receiver, newest first. */
  function GetByUser(db: Database, userId: int, limit: int): (r: seq<Transaction>)
    reads db
    requires db.Valid()
    ensures 0 <= limit ==> |r| <= limit
    ensures Descending(r)
    ensures forall t | t in r :: Involves(t, userId) && Logged(db.log, db.users, t)
    ensures r <= Involving(NewestFirst(db.log, db.users), userId)
    ensures 0 <= limit ==> |r| == if limit < |Involving(NewestFirst(db.log, db.users), userId)| then limit
                                  else |Involving(NewestFirst(db.log, db.users), userId)|
    ensures limit < 0 ==> r == Involving(NewestFirst(db.log, db.users), userId)
    ensures var mine := Involving(NewestFirst(db.log, db.users), userId);
      forall i, j | 0 <= i < |r| <= j < |mine| :: mine[j].id < r[i].id
    ensures limit < 0 ==> forall i | 0 <= i < |db.log| && JoinRow(db.log[i], db.users).Some?
      && Involves(JoinRow(db.log[i], db.users).value, userId) ::
      JoinRow(db.log[i], db.users).value in r
  {
    var all := NewestFirst(db.log, db.users);
    NewestFirstSound(db.log, db.users);
    NewestFirstComplete(db.log, db.users);
    NewestFirstDescending(db.log, db.users);
    InvolvingFacts(all, userId);
    Take(Involving(all, userId), limit)
  }

  /** `get_count`: the number of stored rows, joined or not. */
  function GetCount(db: Database): (r: nat)
    reads db
    ensures r == |db.log|
  {
    |db.log|
  }

  /** `create`: appends one row with the next id and returns it joined. */
  method Create(db: Database, fromUserId: int, toUserId: int, amount: Cents,
                balanceFrom: Cents, balanceTo: Cents,
                messageId: Option<int>, groupId: Option<int>, createdAt: string)
    returns (t: Option<Transaction>)
    requires db.Valid()
    modifies db`log, db`nextTxId
    ensures db.Valid()
    ensures db.log == old(db.log) + [TxRow(old(db.nextTxId), fromUserId, toUserId, amount,
                                           balanceFrom, balanceTo, messageId, groupId, createdAt)]
    ensures db.nextTxId == old(db.nextTxId) + 1
    ensures t == JoinRow(db.log[|db.log| - 1], db.users)
  {
    var row := TxRow(db.nextTxId, fromUserId, toUserId, amount, balanceFrom, balanceTo,
                     messageId, groupId, createdAt);
    db.log := db.log + [row];
    db.nextTxId := db.nextTxId + 1;
    t := JoinRow(row, db.users);
  }

  /** `delete_all`: empties the table; ids already handed out stay used. */
  method DeleteAll(db: Database)
    requires db.Valid()
    modifies db`log
    ensures db.Valid()
    ensures db.log == [] && GetCount(db) == 0
  {
    db.log := [];
  }
}

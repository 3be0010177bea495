/** The two tables of the ledger's database, held in memory: `users` keyed by
    internal id and the append-only `transactions` table, with the
    AUTOINCREMENT counters that hand out ids that are never reused. */
module Storage {
  import opened Wrappers
  import opened Money
  import opened UserModel

  /** A row of the `transactions` table: the audit record of one transfer. */
  datatype TxRow = TxRow(
    id: int,
    fromUserId: int,
    toUserId: int,
    amount: Cents,
    balanceFrom: Cents,
    balanceTo: Cents,
    messageId: Option<int>,
    groupId: Option<int>,
    createdAt: string)

  /** The error of an INSERT that breaks the UNIQUE constraint on `telegram_user_id`. */
  datatype IntegrityError = TelegramIdTaken

  class Database {
    var users: map<int, User>
    var log: seq<TxRow>
    /** The next `users.id` AUTOINCREMENT will hand out. */
    var nextUserId: int
    /** The next `transactions.id` AUTOINCREMENT will hand out. */
    var nextTxId: int

    ghost predicate Valid()
      reads this
    {
      && 1 <= nextUserId && 1 <= nextTxId
      && KeyedById(users, nextUserId)
      && TelegramIdsUnique(users)
      && LogOrdered(log, nextTxId)
    }

    /** A freshly initialised, empty database. */
    constructor ()
      ensures Valid()
      ensures users == map[] && log == []
      ensures nextUserId == 1 && nextTxId == 1
    {
      users := map[];
      log := [];
      nextUserId := 1;
      nextTxId := 1;
    }
  }

  /** Every user is stored under its own id. */
  ghost predicate FiledById(users: map<int, User>)
  {
    forall k | k in users :: users[k].id == k
  }

  /** Every user is stored under its own id, and ids stay below the counter. */
  ghost predicate KeyedById(users: map<int, User>, nextUserId: int)
  {
    FiledById(users) && forall k | k in users :: 1 <= k < nextUserId
  }

  ghost predicate TelegramIdsUnique(users: map<int, User>)
  {
    forall j, k | j in users && k in users && j != k ::
      users[j].profile.telegramUserId != users[k].profile.telegramUserId
  }

  /** Transaction ids grow along the log and stay below the counter. */
  ghost predicate LogOrdered(log: seq<TxRow>, nextTxId: int)
  {
    && (forall i, j | 0 <= i < j < |log| :: log[i].id < log[j].id)
    && (forall i | 0 <= i < |log| :: 1 <= log[i].id < nextTxId)
  }

  ghost predicate NonNegative(users: map<int, User>)
  {
    forall k | k in users :: users[k].balance >= 0
  }

  /** `users` with the balance of user `k` (if stored) replaced by `b`. */
  function SetBalance(users: map<int, User>, k: int, b: Cents): (r: map<int, User>)
    ensures r.Keys == users.Keys
    ensures forall j | j in users && j != k :: r[j] == users[j]
    ensures k in users ==> r[k] == users[k].(balance := b)
  {
    if k in users then users[k := users[k].(balance := b)] else users
  }

  lemma HasKey(users: map<int, User>)
    requires users != map[]
    ensures exists k :: k in users
  {
    if forall k :: k !in users {
      assert false;
    }
  }

  /** The sum of all stored balances. */
  ghost function TotalBalance(users: map<int, User>): int
    decreases |users|
  {
    if users == map[] then 0
    else
      HasKey(users);
      var k :| k in users;
      users[k].balance + TotalBalance(users - {k})
  }

  lemma {:induction false} TotalBalanceRemove(users: map<int, User>, k: int)
    requires k in users
    ensures TotalBalance(users) == users[k].balance + TotalBalance(users - {k})
    decreases |users|
  {
    var j :| j in users && TotalBalance(users) == users[j].balance + TotalBalance(users - {j});
    if j != k {
      TotalBalanceRemove(users - {j}, k);
      TotalBalanceRemove(users - {k}, j);
      assert users - {j} - {k} == users - {k} - {j};
    }
  }

  /** Setting one balance moves the total by the difference. */
  lemma TotalBalanceSet(users: map<int, User>, k: int, b: Cents)
    requires k in users
    ensures TotalBalance(SetBalance(users, k, b)) == TotalBalance(users) - users[k].balance + b
  {
    var r := SetBalance(users, k, b);
    TotalBalanceRemove(users, k);
    TotalBalanceRemove(r, k);
    assert r - {k} == users - {k};
  }

  /** The sum of a list of users' balances, as `sum(u.balance for u in users)`. */
  function SeqSum(rows: seq<User>): int
    decreases |rows|
  {
    if rows == [] then 0 else SeqSum(rows[..|rows| - 1]) + rows[|rows| - 1].balance
  }

  /** The stored user records, each once. */
  ghost function Records(users: map<int, User>): multiset<User>
    decreases |users|
  {
    if users == map[] then multiset{}
    else
      HasKey(users);
      var k :| k in users;
      Records(users - {k}) + multiset{users[k]}
  }

  lemma {:induction false} RecordsRemove(users: map<int, User>, k: int)
    requires k in users
    ensures Records(users) == Records(users - {k}) + multiset{users[k]}
    decreases |users|
  {
    var j :| j in users && Records(users) == Records(users - {j}) + multiset{users[j]};
    if j != k {
      var both := users - {j} - {k};
      assert both == users - {k} - {j};
      RecordsRemove(users - {j}, k);
      RecordsRemove(users - {k}, j);
      assert (users - {j})[k] == users[k];
      assert (users - {k})[j] == users[j];
      calc {
        Records(users);
        Records(users - {j}) + multiset{users[j]};
        (Records(both) + multiset{users[k]}) + multiset{users[j]};
        (Records(both) + multiset{users[j]}) + multiset{users[k]};
        Records(users - {k}) + multiset{users[k]};
      }
    }
  }

  lemma {:induction false} RecordsSize(users: map<int, User>)
    ensures |Records(users)| == |users|
    decreases |users|
  {
    if users != map[] {
      HasKey(users);
      var k :| k in users;
      RecordsRemove(users, k);
      RecordsSize(users - {k});
    }
  }

  /** A record in the store is the one filed under its own id. */
  lemma {:induction false} RecordsMember(users: map<int, User>, x: User)
    requires forall j | j in users :: users[j].id == j
    requires x in Records(users)
    ensures x.id in users && users[x.id] == x
    decreases |users|
  {
    var k :| k in users && Records(users) == Records(users - {k}) + multiset{users[k]};
    if x != users[k] {
      RecordsMember(users - {k}, x);
    }
  }

  /** `rows` lists every stored user exactly once, in some order. */
  ghost predicate IsListing(users: map<int, User>, rows: seq<User>)
  {
    multiset(rows) == Records(users)
  }

  lemma Cancel(a: multiset<User>, b: multiset<User>, x: User)
    requires a + multiset{x} == b + multiset{x}
    ensures a == b
  {
    assert forall y :: a[y] == (a + multiset{x})[y] - multiset{x}[y];
    assert forall y :: b[y] == (b + multiset{x})[y] - multiset{x}[y];
  }

  /** Any listing of the store sums to the total balance and has one entry
      per user. */
  lemma {:induction false} ListingSum(users: map<int, User>, rows: seq<User>)
    requires forall j | j in users :: users[j].id == j
    requires IsListing(users, rows)
    ensures SeqSum(rows) == TotalBalance(users)
    ensures |rows| == |users|
    decreases |rows|
  {
    RecordsSize(users);
    assert |rows| == |multiset(rows)|;
    if rows != [] {
      var x := rows[|rows| - 1];
      var init := rows[..|rows| - 1];
      assert rows == init + [x];
      assert multiset(rows) == multiset(init) + multiset{x};
      assert x in multiset(rows);
      RecordsMember(users, x);
      RecordsRemove(users, x.id);
      Cancel(multiset(init), Records(users - {x.id}), x);
      ListingSum(users - {x.id}, init);
      TotalBalanceRemove(users, x.id);
    }
  }
}

/** The users table's operations: lookups, listing, creation, balance writes,
    reset and delete. Lookups that the database answers with a table scan
    walk the ids in rowid order, as SQLite does. */
module UserService {
  import opened Wrappers
  import opened Text
  import opened Money
  import opened UserModel
  import opened Storage
  import Sorting

  /** `get_by_id`: the user stored under `userId`, if any. */
  function GetById(db: Database, userId: int): (r: Option<User>)
    reads db
    requires db.Valid()
    ensures r.Some? <==> userId in db.users
    ensures r.Some? ==> r.value.id == userId && r.value == db.users[userId]
  {
    if userId in db.users then Some(db.users[userId]) else None
  }

  /** `u` is the user with the lowest id among those named `name`. */
  ghost predicate FirstNamed(users: map<int, User>, name: string, u: User)
  {
    && u.id in users && users[u.id] == u && u.name == name
    && forall k | k in users && k < u.id :: users[k].name != name
  }

  /** `get_by_name`: the first user (in rowid order) with that name, or None
      when nobody has it. */
  method GetByName(db: Database, name: string) returns (r: Option<User>)
    requires db.Valid()
    ensures r.None? <==> forall k | k in db.users :: db.users[k].name != name
    ensures r.Some? ==> FirstNamed(db.users, name, r.value)
  {
    var i := 1;
    while i < db.nextUserId
      invariant 1 <= i <= db.nextUserId
      invariant forall k | k in db.users && k < i :: db.users[k].name != name
    {
      if i in db.users && db.users[i].name == name {
        return Some(db.users[i]);
      }
      i := i + 1;
    }
    return None;
  }

  /** The lookup by Telegram id: the user with that id, or None. The UNIQUE
      constraint makes the answer the only such user. */
  method GetByTelegramId(db: Database, telegramUserId: int) returns (r: Option<User>)
    requires db.Valid()
    ensures r.None? <==> forall k | k in db.users :: db.users[k].profile.telegramUserId != telegramUserId
    ensures forall k | k in db.users && db.users[k].profile.telegramUserId == telegramUserId ::
      r == Some(db.users[k])
  {
    var i := 1;
    while i < db.nextUserId
      invariant 1 <= i <= db.nextUserId
      invariant forall k | k in db.users && k < i :: db.users[k].profile.telegramUserId != telegramUserId
    {
      if i in db.users && db.users[i].profile.telegramUserId == telegramUserId {
        return Some(db.users[i]);
      }
      i := i + 1;
    }
    return None;
  }

  /** The stored users with an id below `i`. */
  ghost function Below(users: map<int, User>, i: int): map<int, User>
  {
    map k | k in users && k < i :: users[k]
  }

  predicate NameLe(a: User, b: User)
  {
    LexLe(a.name, b.name)
  }

  lemma NameOrder()
    ensures Sorting.TotalPreorder(NameLe)
  {
    forall a: User, b: User
      ensures NameLe(a, b) || NameLe(b, a)
    {
      LexLeTotal(a.name, b.name);
    }
    forall a: User, b: User, c: User | NameLe(a, b) && NameLe(b, c)
      ensures NameLe(a, c)
    {
      LexLeTransitive(a.name, b.name, c.name);
    }
  }

  lemma BelowShift(users: map<int, User>, i: int)
    ensures i in users ==> i in Below(users, i + 1) && Below(users, i + 1) - {i} == Below(users, i)
    ensures i !in users ==> Below(users, i + 1) == Below(users, i)
  {
  }

  lemma BelowStep(users: map<int, User>, i: int)
    ensures Records(Below(users, i + 1))
      == Records(Below(users, i)) + (if i in users then multiset{users[i]} else multiset{})
  {
    BelowShift(users, i);
    if i in users {
      RecordsRemove(Below(users, i + 1), i);
    }
  }

  /** The users in rowid order, as a table scan returns them. */
  method Scan(db: Database) returns (rows: seq<User>)
    requires db.Valid()
    ensures IsListing(db.users, rows)
  {
    rows := [];
    var i := 1;
    while i < db.nextUserId
      invariant 1 <= i <= db.nextUserId
      invariant multiset(rows) == Records(Below(db.users, i))
    {
      BelowStep(db.users, i);
      if i in db.users {
        rows := rows + [db.users[i]];
      }
      i := i + 1;
    }
    assert Below(db.users, i) == db.users;
  }

  /** `get_all`: every stored user exactly once, ordered by name. */
  method GetAll(db: Database) returns (r: seq<User>)
    requires db.Valid()
    ensures IsListing(db.users, r)
    ensures Sorting.SortedBy(r, NameLe)
  {
    var rows := Scan(db);
    NameOrder();
    r := Sorting.InsertionSort(rows, NameLe);
  }

  /** Whether some stored user already has this Telegram id. */
  predicate TelegramIdInUse(users: map<int, User>, telegramUserId: int)
  {
    exists k | k in users :: users[k].profile.telegramUserId == telegramUserId
  }

  /** `create`: inserts a user under a fresh id and returns it; the insert
      fails on a Telegram id that is already taken. */
  method Create(db: Database, name: string, profile: Profile, balance: Cents)
    returns (r: Result<User, IntegrityError>)
    requires db.Valid()
    modifies db`users, db`nextUserId
    ensures db.Valid()
    ensures r.Err? <==> TelegramIdInUse(old(db.users), profile.telegramUserId)
    ensures r.Err? ==> db.users == old(db.users) && db.nextUserId == old(db.nextUserId)
    ensures r.Ok? ==>
      && r.value == User(old(db.nextUserId), name, profile, balance)
      && r.value.id !in old(db.users)
      && db.users == old(db.users)[r.value.id := r.value]
      && db.nextUserId == old(db.nextUserId) + 1
  {
    if TelegramIdInUse(db.users, profile.telegramUserId) {
      return Err(TelegramIdTaken);
    }
    var u := User(db.nextUserId, name, profile, balance);
    db.users := db.users[u.id := u];
    db.nextUserId := db.nextUserId + 1;
    return Ok(u);
  }

  /** `update_balance`: refuses a negative balance and changes nothing;
      otherwise sets the balance of `userId` (no row matches an unknown id)
      and reports true. */
  method UpdateBalance(db: Database, userId: int, newBalance: Cents)
    returns (r: Result<bool, BalanceError>)
    requires db.Valid()
    modifies db`users
    ensures db.Valid()
    ensures r.Err? <==> newBalance < 0
    ensures r.Err? ==> r.error == NegativeBalance && db.users == old(db.users)
    ensures r.Ok? ==> r.value && db.users == SetBalance(old(db.users), userId, newBalance)
  {
    var check := ValidateBalance(newBalance);
    if check.Fail? {
      return Err(check.error);
    }
    db.users := SetBalance(db.users, userId, newBalance);
    return Ok(true);
  }

  /** `delete`: removes the user (if stored) and reports true. */
  method Delete(db: Database, userId: int) returns (r: bool)
    requires db.Valid()
    modifies db`users
    ensures db.Valid()
    ensures r && db.users == old(db.users) - {userId}
  {
    db.users := db.users - {userId};
    return true;
  }

  /** Every stored user with its balance set to `b`. */
  function Reset(users: map<int, User>, b: Cents): (r: map<int, User>)
    ensures r.Keys == users.Keys
    ensures forall k | k in users :: r[k] == users[k].(balance := b)
  {
    map k | k in users :: users[k].(balance := b)
  }

  /** `reset_all_balances`: every balance becomes `b`; no user is added or removed. */
  method ResetAllBalances(db: Database, b: Cents)
    requires db.Valid()
    modifies db`users
    ensures db.Valid()
    ensures db.users == Reset(old(db.users), b)
  {
    db.users := Reset(db.users, b);
  }

  /** After a reset the total is the reset balance once per user. */
  lemma {:induction false} ResetTotal(users: map<int, User>, b: Cents)
    ensures TotalBalance(Reset(users, b)) == b * |users|
    decreases |users|
  {
    if users != map[] {
      HasKey(users);
      var k :| k in users;
      var r := Reset(users, b);
      TotalBalanceRemove(r, k);
      assert r - {k} == Reset(users - {k}, b);
      ResetTotal(users - {k}, b);
    }
  }
}

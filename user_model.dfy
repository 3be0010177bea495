/** The `User` record of the ledger and its derived names. */
module UserModel {
  import opened Wrappers
  import opened Text
  import opened Money

  /** The Telegram identity fields of a user. */
  datatype Profile = Profile(
    telegramUserId: int,
    username: Option<string>,
    firstName: Option<string>,
    lastName: Option<string>)

  /** A stored user: internal id, the account name the store looks users up by,
      the Telegram profile and the balance. */
  datatype User = User(id: int, name: string, profile: Profile, balance: Cents)

  /** The error `validate_balance` and `update_balance` raise. */
  datatype BalanceError = NegativeBalance

  /** Python truthiness of an optional text field: set and non-empty. */
  predicate Present(field: Option<string>)
  {
    field.Some? && field.value != ""
  }

  /** `validate_balance`: raises exactly for a negative amount. */
  function ValidateBalance(amount: Cents): (r: Outcome<BalanceError>)
    ensures r.Fail? <==> amount < 0
  {
    if amount < 0 then Fail(NegativeBalance) else Pass
  }

  /** `can_debit`: the user holds at least `amount`, which is exactly when
      the debited balance passes `validate_balance`. */
  predicate CanDebit(u: User, amount: Cents)
    ensures CanDebit(u, amount) <==> ValidateBalance(u.balance - amount) == Pass
  {
    u.balance >= amount
  }

  /** The `User N` label used when no name is known. */
  function UserLabel(telegramUserId: int): (r: string)
    ensures |r| > 5 && r[..5] == "User "
  {
    "User " + IntToString(telegramUserId)
  }

  /** `display_name`: `@username`, else first name with an optional last
      name, else `User <telegram id>`. */
  function DisplayName(u: User): (r: string)
    ensures |r| > 0
  {
    var p := u.profile;
    if Present(p.username) then "@" + p.username.value
    else if Present(p.firstName) then
      p.firstName.value + (if Present(p.lastName) then " " + p.lastName.value else "")
    else UserLabel(p.telegramUserId)
  }

  /** `mention`: `@username` when set, otherwise the display name; the two
      always agree. */
  function Mention(u: User): (r: string)
    ensures r == DisplayName(u)
  {
    if Present(u.profile.username) then "@" + u.profile.username.value else DisplayName(u)
  }

  /** Which fields the display name reads: only the username when it is set,
      only the first and last names when the first name is set. */
  lemma DisplayNameDependsOn(u: User, v: User)
    requires Present(u.profile.username) ==> v.profile.username == u.profile.username
    requires !Present(u.profile.username) && Present(u.profile.firstName) ==>
      !Present(v.profile.username) && v.profile.firstName == u.profile.firstName
      && Present(v.profile.lastName) == Present(u.profile.lastName)
      && (Present(u.profile.lastName) ==> v.profile.lastName == u.profile.lastName)
    requires !Present(u.profile.username) && !Present(u.profile.firstName) ==>
      !Present(v.profile.username) && !Present(v.profile.firstName)
      && v.profile.telegramUserId == u.profile.telegramUserId
    ensures DisplayName(u) == DisplayName(v)
  {
  }

  /** Two users known only by their Telegram ids get different display names. */
  lemma UnnamedUsersDistinct(u: User, v: User)
    requires !Present(u.profile.username) && !Present(u.profile.firstName)
    requires !Present(v.profile.username) && !Present(v.profile.firstName)
    requires u.profile.telegramUserId != v.profile.telegramUserId
    ensures DisplayName(u) != DisplayName(v)
  {
    var a := IntToString(u.profile.telegramUserId);
    var b := IntToString(v.profile.telegramUserId);
    if DisplayName(u) == DisplayName(v) {
      assert ("User " + a)[5..] == a;
      assert ("User " + b)[5..] == b;
      IntToStringInjective(u.profile.telegramUserId, v.profile.telegramUserId);
    }
  }
}

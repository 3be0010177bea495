/** How the natural-language handler maps a Telegram username to one of
    the two ledger accounts. */
module AiHandlers {
  import opened Wrappers
  import opened Text
  import opened UserModel

  /** `username.lower().replace('@', '')` */
  function Normalize(username: string): string
  {
    Remove(Lower(username), '@')
  }

  /** The fixed username table; a name outside it has no account. */
  function AccountFor(key: string): Option<string>
  {
    if key == "person_a" || key == "alice" then Some("person_a")
    else if key == "person_b" || key == "bob" then Some("person_b")
    else None
  }

  /** `_map_username_to_person`: no username (absent or empty) maps to no
      one; otherwise the normalised name is looked up in the table. */
  function MapUsernameToPerson(username: Option<string>): (r: Option<string>)
    ensures r.None? || r == Some("person_a") || r == Some("person_b")
    ensures !Present(username) ==> r.None?
    ensures r.Some? ==> Normalize(username.value) in {"person_a", "alice", "person_b", "bob"}
  {
    if !Present(username) then None else AccountFor(Normalize(username.value))
  }

  /** Which usernames reach which account, in both directions. */
  lemma MapUsernameExactly(s: string)
    ensures MapUsernameToPerson(Some(s)) == Some("person_a") <==> Normalize(s) in {"person_a", "alice"}
    ensures MapUsernameToPerson(Some(s)) == Some("person_b") <==> Normalize(s) in {"person_b", "bob"}
  {
    if s == "" {
      assert Normalize(s) == "";
    }
  }

  /** The mapping ignores letter case. */
  lemma MapIgnoresCase(s: string, t: string)
    requires Lower(s) == Lower(t)
    ensures MapUsernameToPerson(Some(s)) == MapUsernameToPerson(Some(t))
  {
    if s == [] {
      assert Normalize(s) == [];
    }
    if t == [] {
      assert Normalize(t) == [];
    }
  }

  /** Normalising a concatenation normalises each part. */
  lemma NormalizeAppend(a: string, b: string)
    ensures Normalize(a + b) == Normalize(a) + Normalize(b)
  {
    LowerAppend(a, b);
    RemoveAppend(Lower(a), Lower(b), '@');
  }

  /** An '@' anywhere in the username changes nothing. */
  lemma MapIgnoresAt(a: string, b: string)
    ensures MapUsernameToPerson(Some(a + "@" + b)) == MapUsernameToPerson(Some(a + b))
  {
    NormalizeAppend(a + "@", b);
    NormalizeAppend(a, "@");
    NormalizeAppend(a, b);
    assert Normalize("@") == [];
    if a + b == [] {
      assert Normalize(a + b) == [];
    }
  }

  /** An account identifier is already normalised. */
  lemma AccountIsNormal(account: string)
    requires account == "person_a" || account == "person_b"
    ensures Normalize(account) == account
  {
    LowerKeeps(account);
    RemoveAbsent(account, '@');
  }

  /** The account identifiers are themselves usernames that map to their
      own account, so mapping twice is mapping once. */
  lemma MapUsernameIdempotent(username: Option<string>)
    ensures var r := MapUsernameToPerson(username);
      r.Some? ==> MapUsernameToPerson(r) == r
  {
    var r := MapUsernameToPerson(username);
    if r.Some? {
      AccountIsNormal(r.value);
    }
  }
}

/** The `Transaction` record as the reporting side sees it, and its one-entry
    rendering for the history listing. */
module TransactionModel {
  import opened Wrappers
  import opened Text
  import opened Money

  /** A logged transfer joined with the account names of its two parties. */
  datatype Transaction = Transaction(
    id: int,
    fromUserId: int,
    toUserId: int,
    amount: Cents,
    balanceFrom: Cents,
    balanceTo: Cents,
    createdAt: Option<string>,
    fromUserName: Option<string>,
    toUserName: Option<string>)

  /** `name or f"User {id}"`: an absent or empty name falls back to a label. */
  function NameOrLabel(name: Option<string>, userId: int): (r: string)
    ensures |r| > 0
    ensures name.Some? && name.value != "" ==> r == name.value
  {
    if name.Some? && name.value != "" then name.value else "User " + IntToString(userId)
  }

  /** `_format_name`: underscores become spaces, then the text is title-cased. */
  function FormatName(name: string): (r: string)
    ensures |r| == |name|
    ensures forall i | 0 <= i < |r| :: r[i] != '_'
  {
    var spaced := Replace(name, '_', ' ');
    TitleKeepsAbsent(spaced, '_');
    Title(spaced)
  }

  /** Formatting a formatted name again changes nothing. */
  lemma FormatNameIdempotent(name: string)
    ensures FormatName(FormatName(name)) == FormatName(name)
  {
    var f := FormatName(name);
    assert Replace(f, '_', ' ') == f;
    TitleIdempotent(Replace(name, '_', ' '));
  }

  /** The timestamp line: a non-empty text timestamp verbatim, otherwise `N/A`. */
  function Timestamp(createdAt: Option<string>): (r: string)
    ensures |r| > 0
  {
    if createdAt.Some? && createdAt.value != "" then createdAt.value else "N/A"
  }

  const Head: string := "\U{1F4B8} $"
  const Arrow: string := " \U{2192} "

  /** `format_display`: the head, the amount as its field, and the
      timestamp at the end. */
  function FormatDisplay(t: Transaction): (r: string)
    ensures |r| > |Head| && r[..|Head|] == Head
    ensures AmountField(r) == Fixed2(t.amount)
    ensures var stamp := Timestamp(t.createdAt); |stamp| < |r| && r[|r| - |stamp|..] == stamp
  {
    var amount := Fixed2(t.amount);
    var r := Head + (amount + Parties(t));
    assert r[|Head|..] == amount + Parties(t);
    Fixed2HasNoSpace(t.amount);
    UpToSpaceOf(amount, Parties(t));
    r
  }

  /** The part of an entry after the amount: both parties and the timestamp. */
  function Parties(t: Transaction): (r: string)
    ensures |r| > 0 && r[0] == ' '
  {
    " | "
    + FormatName(NameOrLabel(t.fromUserName, t.fromUserId)) + Arrow
    + FormatName(NameOrLabel(t.toUserName, t.toUserId))
    + "\n   " + Timestamp(t.createdAt)
  }

  /** The amount field of a rendered entry: the text after the head up to the
      first space. */
  function AmountField(line: string): string
  {
    if |line| < |Head| then "" else UpToSpace(line[|Head|..])
  }

  function UpToSpace(s: string): (r: string)
    ensures |r| <= |s|
    decreases |s|
  {
    if s == [] || s[0] == ' ' then [] else [s[0]] + UpToSpace(s[1..])
  }

  lemma {:induction false} UpToSpaceOf(a: string, b: string)
    requires forall i | 0 <= i < |a| :: a[i] != ' '
    requires |b| > 0 && b[0] == ' '
    ensures UpToSpace(a + b) == a
    decreases |a|
  {
    if a == [] {
      assert a + b == b;
    } else {
      assert (a + b)[1..] == a[1..] + b;
      UpToSpaceOf(a[1..], b);
    }
  }

  /** A history entry shows the transferred amount exactly: its amount field
      reads back as `t.amount` cents. */
  lemma DisplayShowsAmount(t: Transaction)
    ensures ParseFixed2(AmountField(FormatDisplay(t))) == Some(t.amount)
  {
    Fixed2RoundTrip(t.amount);
  }
}

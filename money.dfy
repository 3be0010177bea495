/** Money as an exact number of cents, and its `f"{x:.2f}"` rendering.
    On whole cents the two-decimal rendering is exact, so no rounding enters. */
module Money {
  import opened Wrappers
  import opened Text

  /** An amount of money in cents (the source's float dollars, made exact). */
  type Cents = int

  /** `f"{c / 100:.2f}"`: optional minus sign, whole units, a point and two digits. */
  function Fixed2(c: Cents): string
  {
    var a := if c < 0 then -c else c;
    (if c < 0 then "-" else "") + Unsigned2(a)
  }

  function Unsigned2(a: nat): string
  {
    NatToString(a / 100) + "." + [DigitChar(a % 100 / 10), DigitChar(a % 100 % 10)]
  }

  /** The rendering is one token: it holds no space. */
  lemma Fixed2HasNoSpace(c: Cents)
    ensures forall i | 0 <= i < |Fixed2(c)| :: Fixed2(c)[i] != ' '
  {
    var a := if c < 0 then -c else c;
    var w := NatToString(a / 100);
    assert Unsigned2(a) == w + "." + [DigitChar(a % 100 / 10), DigitChar(a % 100 % 10)];
  }

  /** Reads an unsigned `units.cc` text back into cents. */
  function ParseUnsigned2(t: string): Option<Cents>
  {
    if |t| >= 4 && AllDigits(t[..|t| - 3]) && t[|t| - 3] == '.' && AllDigits(t[|t| - 2..])
    then Some(ParseNat(t[..|t| - 3]) * 100 + ParseNat(t[|t| - 2..]))
    else None
  }

  /** Reads a rendering of `Fixed2` back into cents. */
  function ParseFixed2(s: string): Option<Cents>
  {
    if |s| > 0 && s[0] == '-' then
      match ParseUnsigned2(s[1..])
      case Some(v) => Some(-v)
      case None => None
    else ParseUnsigned2(s)
  }

  lemma ParseTwoDigits(x: char, y: char)
    requires IsDigit(x) && IsDigit(y)
    ensures ParseNat([x, y]) == DigitValue(x) * 10 + DigitValue(y)
  {
    var s := [x, y];
    assert s[..|s| - 1] == [x];
    assert [x][..0] == [];
    assert ParseNat([x]) == ParseNat([]) * 10 + DigitValue(x);
    assert ParseNat(s) == ParseNat([x]) * 10 + DigitValue(y);
  }

  lemma UnsignedRoundTrip(a: nat)
    ensures ParseUnsigned2(Unsigned2(a)) == Some(a)
  {
    var w := NatToString(a / 100);
    var r := a % 100;
    var two := [DigitChar(r / 10), DigitChar(r % 10)];
    var t := w + "." + two;
    assert t == Unsigned2(a);
    assert t[..|t| - 3] == w;
    assert t[|t| - 2..] == two;
    NatToStringRoundTrip(a / 100);
    ParseTwoDigits(two[0], two[1]);
    assert ParseNat(two) == r;
  }

  /** The rendered amount reads back as exactly the stored cents. */
  lemma Fixed2RoundTrip(c: Cents)
    ensures ParseFixed2(Fixed2(c)) == Some(c)
  {
    var a := if c < 0 then -c else c;
    var u := Unsigned2(a);
    UnsignedRoundTrip(a);
    if c < 0 {
      assert Fixed2(c) == "-" + u;
      assert Fixed2(c)[1..] == u;
    } else {
      assert Fixed2(c) == u;
      assert u[0] != '-';
    }
  }

  /** Two different amounts never render alike. */
  lemma Fixed2Injective(c: Cents, d: Cents)
    requires Fixed2(c) == Fixed2(d)
    ensures c == d
  {
    Fixed2RoundTrip(c);
    Fixed2RoundTrip(d);
  }
}

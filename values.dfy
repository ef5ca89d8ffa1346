/** The JSON values an inventory report and a Grist record carry. */
module Values {

  /**
   * A report or cell value. `Null` is Python's `None` (JSON null); `Other`
   * stands for any other value (a float, a list, an object), identified by
   * its Python `str()` text.
   */
  datatype Value = Null | Bool(b: bool) | Int(i: int) | Str(s: string) | Other(text: string)

  /** The text Python's `str()` (and so an f-string) gives a value; an integer prints as its sign and decimal digits. */
  function Show(v: Value): (r: string)
    ensures v.Int? && v.i >= 0 ==> r == Decimal(v.i) && IsDigits(r) && DigitsValue(r) == v.i
    ensures v.Int? && v.i < 0 ==>
      && r == "-" + Decimal(-v.i)
      && |r| > 1 && r[0] == '-' && IsDigits(r[1..]) && DigitsValue(r[1..]) == -v.i
  {
    match v
    case Null => "None"
    case Bool(b) => if b then "True" else "False"
    case Int(i) =>
      if i < 0 then
        var s := Decimal(-i);
        assert ("-" + s)[1..] == s;
        "-" + s
      else Decimal(i)
    case Str(s) => s
    case Other(t) => t
  }

  predicate IsDigits(s: string)
  {
    |s| > 0 && forall k :: 0 <= k < |s| ==> '0' <= s[k] <= '9'
  }

  /** The number a string of decimal digits spells, most significant first. */
  function DigitsValue(s: string): int
  {
    if s == [] then 0 else DigitsValue(s[..|s| - 1]) * 10 + (s[|s| - 1] as int - '0' as int)
  }

  /** Digits without a leading zero, except for "0" itself: the form Python prints. */
  predicate Canonical(s: string)
  {
    IsDigits(s) && (s[0] == '0' ==> s == "0")
  }

  /** Decimal digits of a natural number, most significant first, without leading zeros. */
  function Decimal(n: nat): (s: string)
    ensures Canonical(s) && DigitsValue(s) == n
    ensures n == 0 ==> s == "0"
  {
    var d := ['0' + (n % 10) as char];
    if n < 10 then d
    else
      var p := Decimal(n / 10);
      assert (p + d)[..|p + d| - 1] == p;
      p + d
  }

  /** A digit string with a non-zero leading digit spells a positive number. */
  lemma {:induction false} LeadingDigitPositive(s: string)
    requires IsDigits(s) && s[0] != '0'
    ensures DigitsValue(s) >= 1
  {
    if |s| > 1 {
      var p := s[..|s| - 1];
      assert p[0] == s[0];
      LeadingDigitPositive(p);
    }
  }

  /** `Decimal(n)` is the only canonical digit string that spells `n`. */
  lemma {:induction false} DecimalUnique(s: string, n: nat)
    requires Canonical(s) && DigitsValue(s) == n
    ensures s == Decimal(n)
  {
    var p, c := s[..|s| - 1], s[|s| - 1];
    var digit := c as int - '0' as int;
    if |s| == 1 {
      assert p == [];
      assert n == digit && n < 10;
      assert s == [c];
    } else {
      assert p[0] == s[0] && s[0] != '0';
      LeadingDigitPositive(p);
      assert n == DigitsValue(p) * 10 + digit && 0 <= digit < 10;
      assert n / 10 == DigitsValue(p) && n % 10 == digit;
      DecimalUnique(p, n / 10);
      assert s == p + [c];
    }
  }
}

/** Character classes and decimal numerals used by the unified-diff line grammar. */
module Text {

  datatype Option<+T> = None | Some(value: T)

  /** `\d` in the grammar. */
  predicate IsDigit(c: char) { '0' <= c <= '9' }

  predicate AllDigits(s: string) { forall i | 0 <= i < |s| :: IsDigit(s[i]) }

  /** `[^\t\n]` repeated: the character class of file names and git paths. */
  predicate NoTabOrNewline(s: string) { forall i | 0 <= i < |s| :: s[i] != '\t' && s[i] != '\n' }

  /** `[^\n]` repeated: the character class of header timestamps. */
  predicate NoLineFeed(s: string) { forall i | 0 <= i < |s| :: s[i] != '\n' }

  /** `.` repeated: ECMAScript's `.` matches neither line feed nor carriage return. */
  predicate NoLineBreak(s: string) { forall i | 0 <= i < |s| :: s[i] != '\n' && s[i] != '\r' }

  predicate StartsWith(s: string, prefix: string) { prefix <= s }

  function DigitValue(c: char): (d: nat)
    requires IsDigit(c)
    ensures d < 10
  {
    c as int - '0' as int
  }

  function DigitChar(d: nat): (c: char)
    requires d < 10
    ensures IsDigit(c) && DigitValue(c) == d
  {
    ('0' as int + d) as char
  }

  /** The value of a run of decimal digits, most significant first (what `std::stoi` computes
      for a digit string, without its overflow). */
  function Decimal(s: string): nat
    requires AllDigits(s)
  {
    if s == [] then 0 else Decimal(s[..|s| - 1]) * 10 + DigitValue(s[|s| - 1])
  }

  /** The shortest decimal numeral of `n`. */
  function Numeral(n: nat): (s: string)
    ensures |s| > 0 && AllDigits(s)
  {
    if n < 10 then [DigitChar(n)] else Numeral(n / 10) + [DigitChar(n % 10)]
  }

  lemma {:induction false} DecimalOfNumeral(n: nat)
    ensures Decimal(Numeral(n)) == n
  {
    if n >= 10 {
      var s := Numeral(n);
      assert s[..|s| - 1] == Numeral(n / 10);
      DecimalOfNumeral(n / 10);
    }
  }

  /** The length of the longest run of digits at the front of `s` (a greedy `\d*`). */
  function LeadingDigits(s: string): (n: nat)
    ensures n <= |s| && AllDigits(s[..n])
    ensures n < |s| ==> !IsDigit(s[n])
  {
    if s == [] || !IsDigit(s[0]) then 0
    else
      var n := 1 + LeadingDigits(s[1..]);
      assert s[..n] == [s[0]] + s[1..][..n - 1];
      n
  }

  lemma {:induction false} LeadingDigitsOfNumeral(d: string, rest: string)
    requires AllDigits(d)
    requires rest == [] || !IsDigit(rest[0])
    ensures LeadingDigits(d + rest) == |d|
  {
    if d != [] {
      assert (d + rest)[1..] == d[1..] + rest;
      LeadingDigitsOfNumeral(d[1..], rest);
    }
  }
}

/**
 * The submission date and its `strftime('%d%m%Y')` rendering, which names
 * the folder a resume is stored under.
 */
module Dates {
  import opened Wrappers
  import opened Digits

  datatype Date = Date(year: int, month: int, day: int)

  predicate IsLeapYear(y: int) {
    y % 4 == 0 && (y % 100 != 0 || y % 400 == 0)
  }

  function DaysInMonth(year: int, month: int): (n: int)
    requires 1 <= month <= 12
    ensures 28 <= n <= 31
  {
    if month == 2 then (if IsLeapYear(year) then 29 else 28)
    else if month == 4 || month == 6 || month == 9 || month == 11 then 30
    else 31
  }

  /** A Gregorian calendar date whose year has four digits. */
  predicate Valid(d: Date) {
    1000 <= d.year <= 9999 && 1 <= d.month <= 12 && 1 <= d.day <= DaysInMonth(d.year, d.month)
  }

  /** `strftime('%d%m%Y')`: day, month and year, zero-padded to 2, 2 and 4 digits. */
  function Ddmmyyyy(d: Date): (s: string)
    requires Valid(d)
    ensures |s| == 8 && AllDigits(s)
  {
    Padded(d.day, 2) + Padded(d.month, 2) + Padded(d.year, 4)
  }

  /** Reads a date folder name back; None unless it is eight digits naming a valid date. */
  function ParseDdmmyyyy(s: string): (r: Option<Date>)
    ensures r.Some? ==> Valid(r.value)
  {
    if |s| == 8 && AllDigits(s) then
      var d := Date(DigitsValue(s[4..]), DigitsValue(s[2..4]), DigitsValue(s[..2]));
      if Valid(d) then Some(d) else None
    else
      None
  }

  /** Reading the folder name of a date gives the date back. */
  lemma ParseOfDdmmyyyy(d: Date)
    requires Valid(d)
    ensures ParseDdmmyyyy(Ddmmyyyy(d)) == Some(d)
  {
    var s := Ddmmyyyy(d);
    assert s[..2] == Padded(d.day, 2);
    assert s[2..4] == Padded(d.month, 2);
    assert s[4..] == Padded(d.year, 4);
  }

  /** Distinct dates have distinct folder names. */
  lemma DdmmyyyyInjective(d1: Date, d2: Date)
    requires Valid(d1) && Valid(d2) && Ddmmyyyy(d1) == Ddmmyyyy(d2)
    ensures d1 == d2
  {
    ParseOfDdmmyyyy(d1);
    ParseOfDdmmyyyy(d2);
  }

  /** A digit string is the padded rendering of its own value. */
  lemma {:induction false} PaddedOfDigitsValue(s: string)
    requires AllDigits(s)
    ensures DigitsValue(s) < Pow10(|s|)
    ensures Padded(DigitsValue(s), |s|) == s
  {
    if s != [] {
      var q, c := s[..|s| - 1], s[|s| - 1];
      assert AllDigits(q);
      PaddedOfDigitsValue(q);
      var a, d := DigitsValue(q), DigitValue(c);
      assert DigitsValue(s) == a * 10 + d;
      AppendDigit(a, d, Pow10(|q|));
      PaddedStep(a * 10 + d, |s|, a, d);
      assert DigitChar(d) == c;
      assert s == q + [c];
    }
  }

  /** Padded's last digit is n % 10, and the digits before it render n / 10. */
  lemma PaddedStep(n: nat, width: nat, a: nat, d: nat)
    requires 0 < width && n < Pow10(width) && a == n / 10 && d == n % 10 && a < Pow10(width - 1)
    ensures Padded(n, width) == Padded(a, width - 1) + [DigitChar(d)]
  {
  }

  /** Appending digit d to a number below p, written in base 10. */
  lemma AppendDigit(a: nat, d: nat, p: nat)
    requires d < 10 && a < p
    ensures (a * 10 + d) / 10 == a && (a * 10 + d) % 10 == d
    ensures a * 10 + d < 10 * p
  {
  }

  /** Every name ParseDdmmyyyy accepts is the folder name of the date it returns. */
  lemma DdmmyyyyOfParse(s: string)
    requires ParseDdmmyyyy(s).Some?
    ensures Ddmmyyyy(ParseDdmmyyyy(s).value) == s
  {
    var dd, mm, yyyy := s[..2], s[2..4], s[4..];
    DigitsOfSlice(s, 0, 2);
    DigitsOfSlice(s, 2, 4);
    DigitsOfSlice(s, 4, 8);
    assert dd == s[0..2] && yyyy == s[4..8];
    PaddedOfDigitsValue(dd);
    PaddedOfDigitsValue(mm);
    PaddedOfDigitsValue(yyyy);
    var d := ParseDdmmyyyy(s).value;
    assert d == Date(DigitsValue(yyyy), DigitsValue(mm), DigitsValue(dd));
    assert Ddmmyyyy(d) == dd + mm + yyyy;
    assert s == dd + mm + yyyy;
  }

  lemma DigitsOfSlice(s: string, i: nat, j: nat)
    requires i <= j <= |s| && AllDigits(s)
    ensures AllDigits(s[i..j])
  {
    forall k | 0 <= k < j - i ensures IsDigit(s[i..j][k]) {
      assert s[i..j][k] == s[i + k];
    }
  }

  /** 1 May 2024 is stored under the folder 01052024. */
  lemma FirstOfMay2024(d: Date)
    requires d == Date(2024, 5, 1)
    ensures Valid(d) && Ddmmyyyy(d) == "01052024"
  {
    OneDigitPadded(d.day);
    OneDigitPadded(d.month);
    Year2024(d.year);
    assert DigitChar(1) == '1' && DigitChar(5) == '5';
  }

  /** A single digit n, padded to two places, is '0' then the digit. */
  lemma OneDigitPadded(n: nat)
    requires n < 10
    ensures Padded(n, 2) == ['0', DigitChar(n)]
  {
    LastDigit(0, 1, 0, 0);
    LastDigit(n, 2, 0, n);
    assert DigitChar(0) == '0';
  }

  lemma Year2024(y: nat)
    requires y == 2024
    ensures Padded(y, 4) == "2024"
  {
    LastDigit(2, 1, 0, 2);
    LastDigit(20, 2, 2, 0);
    LastDigit(202, 3, 20, 2);
    LastDigit(y, 4, 202, 4);
    assert DigitChar(0) == '0' && DigitChar(2) == '2' && DigitChar(4) == '4';
  }

  /** The rendering of 10 * m + u ends in the digit u, after the rendering of m. */
  lemma LastDigit(n: nat, width: nat, m: nat, u: nat)
    requires 0 < width && u < 10 && m < Pow10(width - 1) && n == 10 * m + u
    ensures n < Pow10(width)
    ensures Padded(n, width) == Padded(m, width - 1) + [DigitChar(u)]
  {
    AppendDigit(m, u, Pow10(width - 1));
    PaddedStep(n, width, m, u);
  }
}

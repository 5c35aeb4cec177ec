/**
  * The textual day key `YYYY-MM-DD` (formatDateKey in src/app/page.tsx), the day
  * comparison built on it (isSameDay), and the reading of such a key back into a day
  * (the `YYYY-MM-DD` branch of POST /api/habits/log).
  */
module DateText {
  import opened Calendar

  predicate IsDigit(c: char) {
    '0' <= c <= '9'
  }

  predicate AllDigits(s: string) {
    forall i :: 0 <= i < |s| ==> IsDigit(s[i])
  }

  function DigitChar(d: int): (c: char)
    requires 0 <= d < 10
    ensures IsDigit(c)
  {
    ('0' as int + d) as char
  }

  function DigitValue(c: char): (d: int)
    requires IsDigit(c)
    ensures 0 <= d < 10
  {
    c as int - '0' as int
  }

  /** `String(n)` for a natural number: decimal digits, no leading zero. */
  function NatString(n: nat): (s: string)
    ensures 1 <= |s| && AllDigits(s)
    ensures n < 10 <==> |s| == 1
    ensures |s| > 1 ==> s[0] != '0'
  {
    if n < 10 then [DigitChar(n)] else NatString(n / 10) + [DigitChar(n % 10)]
  }

  /** `Number(s)` for a string of decimal digits. */
  function DigitsValue(s: string): nat
    requires AllDigits(s)
  {
    if s == [] then 0 else DigitsValue(s[..|s| - 1]) * 10 + DigitValue(s[|s| - 1])
  }

  /** Reading the digits of String(n) gives n back. */
  lemma {:induction false} NatStringValue(n: nat)
    ensures DigitsValue(NatString(n)) == n
  {
    if n >= 10 {
      var s := NatString(n);
      assert s[..|s| - 1] == NatString(n / 10);
      NatStringValue(n / 10);
    }
  }

  lemma NatStringInjective(a: nat, b: nat)
    requires NatString(a) == NatString(b)
    ensures a == b
  {
    NatStringValue(a);
    NatStringValue(b);
  }

  lemma NatStringFourDigits(n: nat)
    requires 1000 <= n <= 9999
    ensures |NatString(n)| == 4
  {
    assert |NatString(n / 1000)| == 1;
    assert |NatString(n / 100)| == 2 by {
      assert NatString(n / 100) == NatString(n / 100 / 10) + [DigitChar(n / 100 % 10)];
    }
    assert |NatString(n / 10)| == 3 by {
      assert NatString(n / 10) == NatString(n / 10 / 10) + [DigitChar(n / 10 % 10)];
    }
  }

  /** `String(year)`: a minus sign before the digits of a year before 0. */
  function YearString(y: int): (s: string)
    ensures 1 <= |s|
  {
    if y < 0 then "-" + NatString(-y) else NatString(y)
  }

  lemma YearStringInjective(a: int, b: int)
    requires YearString(a) == YearString(b)
    ensures a == b
  {
    if a < 0 && b < 0 {
      assert YearString(a)[1..] == NatString(-a);
      assert YearString(b)[1..] == NatString(-b);
      NatStringInjective(-a, -b);
    } else if a >= 0 && b >= 0 {
      NatStringInjective(a, b);
    }
  }

  /** `String(n).padStart(2, '0')` */
  function Pad2(n: nat): string {
    var t := NatString(n);
    if |t| < 2 then "0" + t else t
  }

  /** A number from 0 to 99 pads to exactly two digits that read back as the number. */
  lemma Pad2Value(n: nat)
    requires n < 100
    ensures |Pad2(n)| == 2 && AllDigits(Pad2(n)) && DigitsValue(Pad2(n)) == n
  {
    NatStringValue(n);
    if n >= 10 {
      assert NatString(n) == NatString(n / 10) + [DigitChar(n % 10)];
      assert |NatString(n / 10)| == 1;
    } else {
      var p := Pad2(n);
      assert p[..1] == "0";
    }
  }

  /** formatDateKey: year, 1-based month and day of the month, month and day zero-padded. */
  function FormatDateKey(n: int): string {
    var c := ToCivil(n);
    YearString(c.year) + "-" + Pad2(c.month) + "-" + Pad2(c.day)
  }

  /**
    * The key is the year's digits followed by `-MM-DD`: two month digits that read as
    * the 1-based month and two day digits that read as the day of the month.
    */
  lemma DateKeyShape(n: int)
    ensures var key, c := FormatDateKey(n), ToCivil(n);
      && |key| == |YearString(c.year)| + 6
      && key[..|key| - 6] == YearString(c.year)
      && key[|key| - 6] == '-' && key[|key| - 3] == '-'
      && AllDigits(key[|key| - 5..|key| - 3]) && DigitsValue(key[|key| - 5..|key| - 3]) == c.month
      && AllDigits(key[|key| - 2..]) && DigitsValue(key[|key| - 2..]) == c.day
  {
    var key, c := FormatDateKey(n), ToCivil(n);
    var y := YearString(c.year);
    Pad2Value(c.month);
    Pad2Value(c.day);
    assert key == y + "-" + Pad2(c.month) + "-" + Pad2(c.day);
    assert key[..|key| - 6] == y;
    assert key[|key| - 5..|key| - 3] == Pad2(c.month);
    assert key[|key| - 2..] == Pad2(c.day);
  }

  /** Different days have different keys. */
  lemma DateKeyInjective(a: int, b: int)
    requires FormatDateKey(a) == FormatDateKey(b)
    ensures a == b
  {
    var key := FormatDateKey(a);
    var ca, cb := ToCivil(a), ToCivil(b);
    DateKeyShape(a);
    DateKeyShape(b);
    assert YearString(ca.year) == key[..|key| - 6] == YearString(cb.year);
    YearStringInjective(ca.year, cb.year);
    assert ca.month == DigitsValue(key[|key| - 5..|key| - 3]) == cb.month;
    assert ca.day == DigitsValue(key[|key| - 2..]) == cb.day;
    assert ca == cb;
    ToCivilCorrect(a);
    ToCivilCorrect(b);
  }

  /** isSameDay: the two dates have the same key. */
  predicate IsSameDay(a: int, b: int) {
    FormatDateKey(a) == FormatDateKey(b)
  }

  /** Two dates are the same day exactly when they are the same day number. */
  lemma SameDayIff(a: int, b: int)
    ensures IsSameDay(a, b) <==> a == b
  {
    if IsSameDay(a, b) {
      DateKeyInjective(a, b);
    }
  }

  /** The pattern /^\d{4}-\d{2}-\d{2}$/. */
  predicate LooksLikeDateKey(s: string) {
    && |s| == 10
    && AllDigits(s[..4]) && s[4] == '-'
    && AllDigits(s[5..7]) && s[7] == '-'
    && AllDigits(s[8..])
  }

  /**
    * `date.split('-').map(Number)` followed by `Date.UTC(year, month - 1, day)`:
    * out-of-range months and days carry over, and years 0 to 99 mean 1900 to 1999.
    */
  function ParseDateKey(s: string): int
    requires LooksLikeDateKey(s)
  {
    NewDate(DigitsValue(s[..4]), DigitsValue(s[5..7]) - 1, DigitsValue(s[8..]))
  }

  /** The key of a day in years 1000 to 9999 matches the pattern, field by field. */
  lemma DateKeyFields(n: int)
    requires 1000 <= FullYear(n) <= 9999
    ensures var key, c := FormatDateKey(n), ToCivil(n);
      && LooksLikeDateKey(key)
      && DigitsValue(key[..4]) == c.year
      && DigitsValue(key[5..7]) == c.month
      && DigitsValue(key[8..]) == c.day
  {
    var key, c := FormatDateKey(n), ToCivil(n);
    DateKeyShape(n);
    NatStringFourDigits(c.year);
    NatStringValue(c.year);
    assert key[..4] == NatString(c.year);
    assert key[5..7] == key[|key| - 5..|key| - 3];
    assert key[8..] == key[|key| - 2..];
  }

  /** Keys of days in years 1000 to 9999 match the pattern and read back as the same day. */
  lemma ParseFormatRoundTrip(n: int)
    requires 1000 <= FullYear(n) <= 9999
    ensures LooksLikeDateKey(FormatDateKey(n))
    ensures ParseDateKey(FormatDateKey(n)) == n
  {
    var c, key := ToCivil(n), FormatDateKey(n);
    DateKeyFields(n);
    assert ParseDateKey(key) == MakeDay(c.year, c.month - 1, c.day);
    assert MakeDay(c.year, c.month - 1, c.day) == DayNumber(c.year, c.month, c.day) by {
      assert (c.month - 1) / 12 == 0 && (c.month - 1) % 12 + 1 == c.month;
    }
    ToCivilCorrect(n);
  }
}

/** The `to_datetime` helper of `get_ical`: a Notion date string becomes
    either a calendar date (date-only strings) or an instant in UTC. */
module IcsDates {
  import opened Results

  /** A proleptic Gregorian calendar date, as Python's `datetime.date`. */
  datatype CivilDate = CivilDate(year: int, month: int, day: int)

  /** A wall-clock reading, as the fields of a Python `datetime`. */
  datatype Clock = Clock(year: int, month: int, day: int,
                         hour: int, minute: int, second: int, microsecond: int)

  /** What `to_datetime` hands to DTSTART or DTEND: a date with no time
      component, or an instant whose `tzinfo` is UTC, given by its UTC clock. */
  datatype DateValue =
    | DateOnly(date: CivilDate)
    | UtcInstant(clock: Clock)

  predicate IsLeapYear(y: int)
  {
    y % 4 == 0 && (y % 100 != 0 || y % 400 == 0)
  }

  function DaysInMonth(y: int, m: int): (n: int)
    requires 1 <= m <= 12
    ensures 28 <= n <= 31
    ensures n == 29 <==> m == 2 && IsLeapYear(y)
  {
    if m == 2 then (if IsLeapYear(y) then 29 else 28)
    else if m == 4 || m == 6 || m == 9 || m == 11 then 30
    else 31
  }

  /** The dates Python's `date` accepts: years 1 through 9999. */
  predicate ValidDate(d: CivilDate)
  {
    1 <= d.year <= 9999 && 1 <= d.month <= 12 && 1 <= d.day <= DaysInMonth(d.year, d.month)
  }

  predicate IsDigit(c: char)
  {
    '0' <= c <= '9'
  }

  function DigitValue(c: char): (n: nat)
    requires IsDigit(c)
    ensures n <= 9
  {
    c as int - '0' as int
  }

  function DigitChar(n: nat): (c: char)
    requires n <= 9
    ensures IsDigit(c) && DigitValue(c) == n
  {
    (n + '0' as int) as char
  }

  /** The shape `strptime(s, '%Y-%m-%d')` accepts in a ten-character string:
      four digits, '-', two digits, '-', then two digits or a space and a digit
      (the `' [1-9]'` alternative of `%d`). */
  predicate DateShaped(s: string)
  {
    |s| == 10
    && IsDigit(s[0]) && IsDigit(s[1]) && IsDigit(s[2]) && IsDigit(s[3])
    && s[4] == '-' && IsDigit(s[5]) && IsDigit(s[6]) && s[7] == '-'
    && (IsDigit(s[8]) || s[8] == ' ') && IsDigit(s[9])
  }

  /** The date-only branch: `datetime.strptime(s, '%Y-%m-%d').date()`,
      `None` where Python raises `ValueError`. */
  function ParseDateOnly(s: string): (r: Option<CivilDate>)
    ensures r.Some? ==> DateShaped(s) && ValidDate(r.value)
    ensures r.Some? ==> r.value.year == 1000 * DigitValue(s[0]) + 100 * DigitValue(s[1])
                                       + 10 * DigitValue(s[2]) + DigitValue(s[3])
    ensures r.Some? ==> r.value.month == 10 * DigitValue(s[5]) + DigitValue(s[6])
    ensures r.Some? ==> r.value.day == (if s[8] == ' ' then 0 else 10 * DigitValue(s[8])) + DigitValue(s[9])
  {
    if DateShaped(s) then
      var year := 1000 * DigitValue(s[0]) + 100 * DigitValue(s[1]) + 10 * DigitValue(s[2]) + DigitValue(s[3]);
      var month := 10 * DigitValue(s[5]) + DigitValue(s[6]);
      var day := if s[8] == ' ' then DigitValue(s[9]) else 10 * DigitValue(s[8]) + DigitValue(s[9]);
      var d := CivilDate(year, month, day);
      if ValidDate(d) then Some(d) else None
    else None
  }

  /** `date.isoformat()`: the canonical `YYYY-MM-DD` text of a date. */
  function FormatDate(d: CivilDate): (s: string)
    requires ValidDate(d)
    ensures |s| == 10 && s[4] == '-' && s[7] == '-'
  {
    [DigitChar(d.year / 1000), DigitChar(d.year / 100 % 10),
     DigitChar(d.year / 10 % 10), DigitChar(d.year % 10), '-',
     DigitChar(d.month / 10), DigitChar(d.month % 10), '-',
     DigitChar(d.day / 10), DigitChar(d.day % 10)]
  }

  /** The four decimal digits of a year, recombined, give the year. */
  lemma FourDigits(n: int)
    requires 0 <= n <= 9999
    ensures 1000 * (n / 1000) + 100 * (n / 100 % 10) + 10 * (n / 10 % 10) + n % 10 == n
  {
    var m := n / 10;
    assert n / 100 == m / 10;
    assert n / 1000 == m / 100;
    assert m == 10 * (m / 10) + m % 10;
    assert m / 10 == 10 * (m / 100) + m / 10 % 10;
  }

  lemma DivMod10(q: int, r: int)
    requires 0 <= q && 0 <= r < 10
    ensures (10 * q + r) / 10 == q && (10 * q + r) % 10 == r
  {
  }

  /** Four digits combined into a number are recovered by the digit extraction. */
  lemma FourDigitsBack(a: int, b: int, c: int, e: int)
    requires 0 <= a <= 9 && 0 <= b <= 9 && 0 <= c <= 9 && 0 <= e <= 9
    ensures var n := 1000 * a + 100 * b + 10 * c + e;
      n / 1000 == a && n / 100 % 10 == b && n / 10 % 10 == c && n % 10 == e
  {
    var n := 1000 * a + 100 * b + 10 * c + e;
    DivMod10(100 * a + 10 * b + c, e);
    DivMod10(10 * a + b, c);
    DivMod10(a, b);
    assert n / 10 == 100 * a + 10 * b + c;
    assert n / 100 == (n / 10) / 10;
    assert n / 1000 == (n / 100) / 10;
  }

  /** Conversely to the contract of `ParseDateOnly`: a string of the accepted
      shape whose digits spell a valid date is accepted, as that date. */
  lemma ShapedDateAccepted(s: string)
    requires DateShaped(s)
    requires ValidDate(CivilDate(
      1000 * DigitValue(s[0]) + 100 * DigitValue(s[1]) + 10 * DigitValue(s[2]) + DigitValue(s[3]),
      10 * DigitValue(s[5]) + DigitValue(s[6]),
      (if s[8] == ' ' then 0 else 10 * DigitValue(s[8])) + DigitValue(s[9])))
    ensures ParseDateOnly(s) == Some(CivilDate(
      1000 * DigitValue(s[0]) + 100 * DigitValue(s[1]) + 10 * DigitValue(s[2]) + DigitValue(s[3]),
      10 * DigitValue(s[5]) + DigitValue(s[6]),
      (if s[8] == ' ' then 0 else 10 * DigitValue(s[8])) + DigitValue(s[9])))
  {
  }

  /** Every valid date prints as text that the date-only branch reads back. */
  lemma ParseFormat(d: CivilDate)
    requires ValidDate(d)
    ensures ParseDateOnly(FormatDate(d)) == Some(d)
  {
    FourDigits(d.year);
  }

  /** Conversely, a date-only string the parser accepts is the canonical text
      of the date it yields, unless its day was written space-padded. */
  lemma FormatParse(s: string)
    requires ParseDateOnly(s).Some?
    requires s[8] != ' '
    ensures FormatDate(ParseDateOnly(s).value) == s
  {
    FourDigitsBack(DigitValue(s[0]), DigitValue(s[1]), DigitValue(s[2]), DigitValue(s[3]));
    DivMod10(DigitValue(s[5]), DigitValue(s[6]));
    DivMod10(DigitValue(s[8]), DigitValue(s[9]));
    var f := FormatDate(ParseDateOnly(s).value);
    assert f[..4] == s[..4];
    assert f[4..] == s[4..];
    assert f == f[..4] + f[4..] && s == s[..4] + s[4..];
  }

  /** `to_datetime(date_str)`. A string of exactly ten characters goes through
      the date-only parser; any other string goes through `fromisoformat`
      followed by `astimezone(timezone.utc)`, which this model takes as the
      parameter `toUtc` (the UTC wall clock of the instant, `None` where Python
      raises). Either parser's refusal is a `ValueError` naming the string. */
  function ToDateTime(s: string, toUtc: string -> Option<Clock>): (r: Result<DateValue>)
    ensures r.Ok? ==> (r.value.DateOnly? <==> |s| == 10)
    ensures r.Ok? && r.value.DateOnly? ==> ValidDate(r.value.date)
    ensures r.Ok? && r.value.UtcInstant? ==> Some(r.value.clock) == toUtc(s)
    ensures r.Err? ==> r.error == ValueError(s)
    ensures |s| != 10 ==> (r.Ok? <==> toUtc(s).Some?)
  {
    if |s| == 10 then
      match ParseDateOnly(s)
      case Some(d) => Ok(DateOnly(d))
      case None => Err(ValueError(s))
    else
      match toUtc(s)
      case Some(c) => Ok(UtcInstant(c))
      case None => Err(ValueError(s))
  }

  /** A date-only string is read as a date with no time component; when it is
      in canonical form, that date prints back as the same text. */
  lemma DateOnlyBranch(s: string, toUtc: string -> Option<Clock>)
    requires |s| == 10
    ensures ToDateTime(s, toUtc).Ok? <==> ParseDateOnly(s).Some?
    ensures ToDateTime(s, toUtc).Ok? ==> ToDateTime(s, toUtc).value == DateOnly(ParseDateOnly(s).value)
    ensures ToDateTime(s, toUtc).Ok? && s[8] != ' ' ==> FormatDate(ToDateTime(s, toUtc).value.date) == s
  {
    if ParseDateOnly(s).Some? && s[8] != ' ' {
      FormatParse(s);
    }
  }

  /** The date-only branch does not depend on the timestamp converter. */
  lemma DateOnlyIgnoresConverter(s: string, f: string -> Option<Clock>, g: string -> Option<Clock>)
    requires |s| == 10
    ensures ToDateTime(s, f) == ToDateTime(s, g)
  {
  }
}

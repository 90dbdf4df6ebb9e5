/** Calendar dates as the form uses them: the strict `DD/MM/YYYY` parse
    (`dayjs(s, "DD/MM/YYYY", true)`), the proleptic Gregorian calendar of
    JavaScript dates, and comparison at day granularity. */
module Dates {
  import opened Wrappers
  import opened JsString

  datatype Date = Date(year: int, month: int, day: int)

  predicate IsLeapYear(y: int) {
    y % 4 == 0 && (y % 100 != 0 || y % 400 == 0)
  }

  function DaysInMonth(month: int, year: int): (n: int)
    requires 1 <= month <= 12
    ensures 28 <= n <= 31
  {
    if month == 2 then (if IsLeapYear(year) then 29 else 28)
    else if month == 4 || month == 6 || month == 9 || month == 11 then 30
    else 31
  }

  /** A real day of the Gregorian calendar. */
  predicate ValidDate(d: Date) {
    1 <= d.month <= 12 && 1 <= d.day <= DaysInMonth(d.month, d.year)
  }

  /** A calendar day, as the clock always yields one. */
  type CalendarDay = d: Date | ValidDate(d) witness Date(1970, 1, 1)

  /** The earliest year the strict parse accepts: the parser builds the date
      with `new Date(y, M, d)`, which reads a year from 0 to 99 as 1900 + y
      (and a parsed year 0 is first replaced by the current year), so the
      strict re-formatting of such a date never equals the input. */
  const MIN_STRICT_YEAR: int := 100

  /** A date the four-digit `YYYY` token spells and the strict parse reads
      back. */
  predicate Representable(d: Date) {
    ValidDate(d) && MIN_STRICT_YEAR <= d.year <= 9999
  }

  function TwoDigits(n: int): (s: string)
    requires 0 <= n < 100
    ensures |s| == 2 && AllDigits(s)
  {
    [DigitChar(n / 10), DigitChar(n % 10)]
  }

  function FourDigits(n: int): (s: string)
    requires 0 <= n < 10000
    ensures |s| == 4 && AllDigits(s)
  {
    TwoDigits(n / 100) + TwoDigits(n % 100)
  }

  /** `date.format("DD/MM/YYYY")`. */
  function Format(d: Date): (s: string)
    requires Representable(d)
    ensures |s| == 10 && s[2] == '/' && s[5] == '/'
  {
    TwoDigits(d.day) + "/" + TwoDigits(d.month) + "/" + FourDigits(d.year)
  }

  function Num2(a: char, b: char): (n: int)
    requires IsAsciiDigit(a) && IsAsciiDigit(b)
    ensures 0 <= n < 100 && TwoDigits(n) == [a, b]
  {
    DigitValue(a) * 10 + DigitValue(b)
  }

  lemma FourDigitsSplit(hi: int, lo: int)
    requires 0 <= hi < 100 && 0 <= lo < 100
    ensures FourDigits(hi * 100 + lo) == TwoDigits(hi) + TwoDigits(lo)
  {
    var n := hi * 100 + lo;
    assert n / 100 == hi && n % 100 == lo;
  }

  /** Two day digits, two month digits and four year digits separated by
      `/`. */
  predicate DateShape(s: string) {
    && |s| == 10 && s[2] == '/' && s[5] == '/'
    && IsAsciiDigit(s[0]) && IsAsciiDigit(s[1]) && IsAsciiDigit(s[3]) && IsAsciiDigit(s[4])
    && IsAsciiDigit(s[6]) && IsAsciiDigit(s[7]) && IsAsciiDigit(s[8]) && IsAsciiDigit(s[9])
  }

  /** The date the digits of a well-shaped text spell, valid or not. */
  function Fields(s: string): Date
    requires DateShape(s)
  {
    Date(Num2(s[6], s[7]) * 100 + Num2(s[8], s[9]), Num2(s[3], s[4]), Num2(s[0], s[1]))
  }

  /** A well-shaped text naming a real day is that day's formatting. */
  lemma FormatOfFields(s: string)
    requires DateShape(s) && ValidDate(Fields(s)) && Fields(s).year >= MIN_STRICT_YEAR
    ensures Representable(Fields(s)) && Format(Fields(s)) == s
  {
    var hi, lo := Num2(s[6], s[7]), Num2(s[8], s[9]);
    FourDigitsSplit(hi, lo);
    assert s == [s[0], s[1]] + "/" + [s[3], s[4]] + "/" + [s[6], s[7]] + [s[8], s[9]];
  }

  /** `dayjs(s, "DD/MM/YYYY", true)`: strict mode accepts exactly two day
      digits, two month digits and four year digits separated by `/` that
      name a real calendar day in a year from 100 on; `None` is an invalid
      dayjs object. */
  function ParseStrict(s: string): (r: Option<Date>)
    ensures r.Some? ==> Representable(r.value) && Format(r.value) == s
    ensures DateShape(s) && Fields(s).year < MIN_STRICT_YEAR ==> r.None?
  {
    if DateShape(s) && ValidDate(Fields(s)) && Fields(s).year >= MIN_STRICT_YEAR then
      FormatOfFields(s);
      Some(Fields(s))
    else None
  }

  /** Every representable date is accepted back from its own formatting. */
  lemma ParseStrictOfFormat(d: Date)
    requires Representable(d)
    ensures ParseStrict(Format(d)) == Some(d)
  {
    var s := Format(d);
    var dd, mm := TwoDigits(d.day), TwoDigits(d.month);
    var hi, lo := TwoDigits(d.year / 100), TwoDigits(d.year % 100);
    assert s == dd + "/" + mm + "/" + (hi + lo);
    assert s[0] == dd[0] && s[1] == dd[1] && s[3] == mm[0] && s[4] == mm[1];
    assert s[6] == hi[0] && s[7] == hi[1] && s[8] == lo[0] && s[9] == lo[1];
    assert DateShape(s);
    Num2OfTwoDigits(d.day);
    Num2OfTwoDigits(d.month);
    Num2OfTwoDigits(d.year / 100);
    Num2OfTwoDigits(d.year % 100);
    assert Fields(s) == d;
  }

  /** The two digits `TwoDigits` writes read back as the number. */
  lemma Num2OfTwoDigits(n: int)
    requires 0 <= n < 100
    ensures Num2(TwoDigits(n)[0], TwoDigits(n)[1]) == n
  {
  }

  /** `a` falls on an earlier calendar day than `b`. */
  predicate Before(a: Date, b: Date) {
    || a.year < b.year
    || (a.year == b.year && a.month < b.month)
    || (a.year == b.year && a.month == b.month && a.day < b.day)
  }

  /** `dayjs().add(1, "day")` at day granularity. */
  function NextDay(d: Date): (n: Date)
    requires ValidDate(d)
    ensures ValidDate(n) && Before(d, n)
  {
    if d.day < DaysInMonth(d.month, d.year) then d.(day := d.day + 1)
    else if d.month < 12 then Date(d.year, d.month + 1, 1)
    else Date(d.year + 1, 1, 1)
  }

  /** Nothing lies strictly between a day and the next one: a valid date is
      before tomorrow exactly when it is not after today. */
  lemma BeforeNextDayIff(a: Date, today: Date)
    requires ValidDate(a) && ValidDate(today)
    ensures Before(a, NextDay(today)) <==> !Before(today, a)
  {
  }
}

/**
 The proleptic Gregorian calendar as a numbering of days, day 0 being
 0000-01-01, and of seconds.
 */
module Calendar {

  const SECONDS_PER_DAY: int := 86400
  const DAYS_PER_ERA: int := 146097

  predicate IsLeap(year: int) {
    year % 4 == 0 && (year % 100 != 0 || year % 400 == 0)
  }

  function YearLength(year: int): int {
    if IsLeap(year) then 366 else 365
  }

  function MonthLength(year: int, month: int): int {
    if month == 2 then (if IsLeap(year) then 29 else 28)
    else if month == 4 || month == 6 || month == 9 || month == 11 then 30
    else 31
  }

  /** Days from 0000-01-01 to the first day of the year. */
  function DaysBeforeYear(year: int): int {
    365 * year + (year + 3) / 4 - (year + 99) / 100 + (year + 399) / 400
  }

  lemma NextFourth(year: int)
    ensures (year + 4) / 4 == (year + 3) / 4 + (if year % 4 == 0 then 1 else 0)
  {
  }

  lemma NextHundredth(year: int)
    ensures (year + 100) / 100 == (year + 99) / 100 + (if year % 100 == 0 then 1 else 0)
  {
  }

  lemma NextFourHundredth(year: int)
    ensures (year + 400) / 400 == (year + 399) / 400 + (if year % 400 == 0 then 1 else 0)
  {
  }

  lemma HundredDivides(q: int)
    ensures (400 * q) % 100 == 0
  {
    assert 400 * q == 100 * (4 * q);
  }

  lemma FourDivides(q: int)
    ensures (100 * q) % 4 == 0
  {
    assert 100 * q == 4 * (25 * q);
  }

  lemma NextYear(year: int)
    ensures DaysBeforeYear(year + 1) == DaysBeforeYear(year) + YearLength(year)
  {
    NextFourth(year);
    NextHundredth(year);
    NextFourHundredth(year);
    HundredDivides(year / 400);
    FourDivides(year / 100);
    assert year % 400 == 0 ==> year == 400 * (year / 400);
    assert year % 100 == 0 ==> year == 100 * (year / 100);
  }

  lemma {:induction false} YearsInOrder(a: int, b: int)
    requires a < b
    ensures DaysBeforeYear(a) + YearLength(a) <= DaysBeforeYear(b)
    decreases b - a
  {
    NextYear(b - 1);
    if a < b - 1 { YearsInOrder(a, b - 1); }
  }

  function DaysBeforeMonth(year: int, month: int): (days: int)
    ensures 0 <= days
    decreases month
  {
    if month <= 1 then 0 else DaysBeforeMonth(year, month - 1) + MonthLength(year, month - 1)
  }

  lemma {:induction false} MonthsInOrder(year: int, a: int, b: int)
    requires 1 <= a < b <= 13
    ensures DaysBeforeMonth(year, a) + MonthLength(year, a) <= DaysBeforeMonth(year, b)
    decreases b
  {
    if a < b - 1 { MonthsInOrder(year, a, b - 1); }
  }

  /** Where the months of a year begin. */
  lemma MonthStarts(year: int)
    ensures var leap := if IsLeap(year) then 1 else 0;
            && DaysBeforeMonth(year, 2) == 31 && DaysBeforeMonth(year, 3) == 59 + leap
            && DaysBeforeMonth(year, 4) == 90 + leap && DaysBeforeMonth(year, 5) == 120 + leap
            && DaysBeforeMonth(year, 6) == 151 + leap && DaysBeforeMonth(year, 7) == 181 + leap
            && DaysBeforeMonth(year, 8) == 212 + leap && DaysBeforeMonth(year, 9) == 243 + leap
            && DaysBeforeMonth(year, 10) == 273 + leap && DaysBeforeMonth(year, 11) == 304 + leap
            && DaysBeforeMonth(year, 12) == 334 + leap && DaysBeforeMonth(year, 13) == 365 + leap
  {
    assert DaysBeforeMonth(year, 3) == DaysBeforeMonth(year, 2) + MonthLength(year, 2);
    assert DaysBeforeMonth(year, 5) == DaysBeforeMonth(year, 4) + 30;
    assert DaysBeforeMonth(year, 7) == DaysBeforeMonth(year, 6) + 30;
    assert DaysBeforeMonth(year, 9) == DaysBeforeMonth(year, 8) + 31;
    assert DaysBeforeMonth(year, 11) == DaysBeforeMonth(year, 10) + 31;
    assert DaysBeforeMonth(year, 13) == DaysBeforeMonth(year, 12) + 31;
  }

  lemma MonthsFillYear(year: int)
    ensures DaysBeforeMonth(year, 13) == YearLength(year)
  {
    MonthStarts(year);
  }

  // ----------------------------------------------------------------------- dates

  datatype Date = Date(year: int, month: int, day: int)

  predicate ValidDate(d: Date) {
    1 <= d.month <= 12 && 1 <= d.day <= MonthLength(d.year, d.month)
  }

  function DayNumber(d: Date): int {
    DaysBeforeYear(d.year) + DaysBeforeMonth(d.year, d.month) + d.day - 1
  }

  predicate DateBefore(a: Date, b: Date) {
    || a.year < b.year
    || (a.year == b.year && a.month < b.month)
    || (a.year == b.year && a.month == b.month && a.day < b.day)
  }

  lemma DayOfYear(d: Date)
    requires ValidDate(d)
    ensures DaysBeforeYear(d.year) <= DayNumber(d) < DaysBeforeYear(d.year) + YearLength(d.year)
  {
    MonthsInOrder(d.year, d.month, 13);
    MonthsFillYear(d.year);
  }

  /** Days are numbered in calendar order. */
  lemma DaysInOrder(a: Date, b: Date)
    requires ValidDate(a) && ValidDate(b)
    ensures DayNumber(a) < DayNumber(b) <==> DateBefore(a, b)
    ensures DayNumber(a) == DayNumber(b) <==> a == b
  {
    DayOfYear(a);
    DayOfYear(b);
    if a.year < b.year { YearsInOrder(a.year, b.year); }
    else if b.year < a.year { YearsInOrder(b.year, a.year); }
    else if a.month < b.month { MonthsInOrder(a.year, a.month, b.month); }
    else if b.month < a.month { MonthsInOrder(a.year, b.month, a.month); }
  }

  function YearFrom(year: int, day: int): (y: int)
    requires DaysBeforeYear(year) <= day
    ensures DaysBeforeYear(y) <= day < DaysBeforeYear(y + 1)
    decreases day - DaysBeforeYear(year)
  {
    NextYear(year);
    if day < DaysBeforeYear(year + 1) then year else YearFrom(year + 1, day)
  }

  function MonthFrom(year: int, month: int, day: int): (m: int)
    requires 1 <= month <= 12
    requires DaysBeforeMonth(year, month) <= day < DaysBeforeMonth(year, 13)
    ensures 1 <= m <= 12
    ensures DaysBeforeMonth(year, m) <= day < DaysBeforeMonth(year, m) + MonthLength(year, m)
    decreases 12 - month
  {
    if day < DaysBeforeMonth(year, month + 1) then month else MonthFrom(year, month + 1, day)
  }

  lemma EraStart(era: int)
    ensures DaysBeforeYear(400 * era) == DAYS_PER_ERA * era
  {
    assert (400 * era + 3) / 4 == 100 * era;
    assert (400 * era + 99) / 100 == 4 * era;
    assert (400 * era + 399) / 400 == era;
  }

  function YearOf(day: int): (y: int)
    ensures DaysBeforeYear(y) <= day < DaysBeforeYear(y + 1)
  {
    EraStart(day / DAYS_PER_ERA);
    YearFrom(400 * (day / DAYS_PER_ERA), day)
  }

  /** The date of a day: the inverse of DayNumber. */
  function DateOf(day: int): (d: Date)
    ensures ValidDate(d) && DayNumber(d) == day
  {
    var year := YearOf(day);
    var inYear := day - DaysBeforeYear(year);
    NextYear(year);
    MonthsFillYear(year);
    var month := MonthFrom(year, 1, inYear);
    Date(year, month, inYear - DaysBeforeMonth(year, month) + 1)
  }

  // ---------------------------------------------------------------- times of day

  /** A date and time of day, without a zone. */
  datatype Civil = Civil(date: Date, hour: int, minute: int, second: int)

  predicate ValidCivil(c: Civil) {
    ValidDate(c.date) && 0 <= c.hour < 24 && 0 <= c.minute < 60 && 0 <= c.second < 60
  }

  /** Seconds from 0000-01-01T00:00:00. */
  function SecondNumber(c: Civil): int {
    DayNumber(c.date) * SECONDS_PER_DAY + c.hour * 3600 + c.minute * 60 + c.second
  }

  function CivilOf(second: int): (c: Civil)
    ensures ValidCivil(c) && SecondNumber(c) == second
  {
    var ofDay := second % SECONDS_PER_DAY;
    var ofHour := ofDay % 3600;
    Civil(DateOf(second / SECONDS_PER_DAY), ofDay / 3600, ofHour / 60, ofHour % 60)
  }

  /** When a year begins. */
  lemma YearStart(year: int)
    ensures SecondNumber(Civil(Date(year, 1, 1), 0, 0, 0)) == DaysBeforeYear(year) * SECONDS_PER_DAY
  {
    assert DayNumber(Date(year, 1, 1)) == DaysBeforeYear(year);
  }

  predicate CivilBefore(a: Civil, b: Civil) {
    || DateBefore(a.date, b.date)
    || (a.date == b.date && a.hour < b.hour)
    || (a.date == b.date && a.hour == b.hour && a.minute < b.minute)
    || (a.date == b.date && a.hour == b.hour && a.minute == b.minute && a.second < b.second)
  }

  /** Seconds are numbered in the order of their civil readings. */
  lemma SecondsInOrder(a: Civil, b: Civil)
    requires ValidCivil(a) && ValidCivil(b)
    ensures SecondNumber(a) < SecondNumber(b) <==> CivilBefore(a, b)
    ensures SecondNumber(a) == SecondNumber(b) <==> a == b
  {
    DaysInOrder(a.date, b.date);
  }

  /** Reading the civil time of a second number gives the civil time it was counted from. */
  lemma CivilOfSecondNumber(c: Civil)
    requires ValidCivil(c)
    ensures CivilOf(SecondNumber(c)) == c
  {
    SecondsInOrder(CivilOf(SecondNumber(c)), c);
  }
}

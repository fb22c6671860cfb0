/** The proleptic Gregorian calendar by day number, with day 0 at 1970-01-01, as `Date.UTC` and `toISOString` use it. */
module Calendar {

  datatype Civil = Civil(year: int, month: int, day: int)

  predicate Leap(year: int) {
    year % 4 == 0 && (year % 100 != 0 || year % 400 == 0)
  }

  const EPOCH := 719_528

  /** Days from 1970-01-01 to the first of January. */
  function YearStart(year: int): int {
    365 * year + (year + 3) / 4 - (year + 99) / 100 + (year + 399) / 400 - EPOCH
  }

  function YearLength(year: int): int {
    if Leap(year) then 366 else 365
  }

  /** Days before a month, counted from 0 for January; 12 stands for the whole year. */
  function MonthStart(year: int, month: int): int
    requires 0 <= month <= 12
  {
    if month < 2 || !Leap(year) then CommonStart(month) else CommonStart(month) + 1
  }

  function CommonStart(month: int): int
    requires 0 <= month <= 12
  {
    if month <= 2 then if month == 0 then 0 else if month == 1 then 31 else 59
    else if month <= 5 then if month == 3 then 90 else if month == 4 then 120 else 151
    else if month <= 8 then if month == 6 then 181 else if month == 7 then 212 else 243
    else if month <= 10 then if month == 9 then 273 else 304
    else if month == 11 then 334 else 365
  }

  /** `Date.UTC(year, month - 1, day)` in days: months and days outside their range carry over. */
  function DayNumber(date: Civil): int {
    var year, month := date.year + (date.month - 1) / 12, (date.month - 1) % 12;
    YearStart(year) + MonthStart(year, month) + date.day - 1
  }

  predicate Exists(date: Civil) {
    1 <= date.month <= 12 && 1 <= date.day <= MonthStart(date.year, date.month) - MonthStart(date.year, date.month - 1)
  }

  lemma Divides(year: int)
    ensures year % 400 == 0 ==> year % 100 == 0
    ensures year % 100 == 0 ==> year % 4 == 0
  {
    var centuries, rest := year / 100, year % 100;
    assert year == 4 * (25 * centuries) + rest;
    var cycles, more := year / 400, year % 400;
    assert year == 100 * (4 * cycles) + more;
  }

  lemma Fours(year: int)
    ensures (year + 4) / 4 == (year + 3) / 4 + if year % 4 == 0 then 1 else 0
  {
  }

  lemma Hundreds(year: int)
    ensures (year + 100) / 100 == (year + 99) / 100 + if year % 100 == 0 then 1 else 0
  {
  }

  lemma FourHundreds(year: int)
    ensures (year + 400) / 400 == (year + 399) / 400 + if year % 400 == 0 then 1 else 0
  {
  }

  lemma YearsFollow(year: int)
    ensures YearStart(year + 1) == YearStart(year) + YearLength(year)
  {
    Fours(year);
    Hundreds(year);
    FourHundreds(year);
    Divides(year);
    assert year + 1 + 3 == year + 4 && year + 1 + 99 == year + 100 && year + 1 + 399 == year + 400;
  }

  lemma {:induction false} YearsAscend(a: int, b: int)
    requires a <= b
    ensures YearStart(a) + 365 * (b - a) <= YearStart(b)
    decreases b - a
  {
    hide YearStart;
    if a < b {
      YearsFollow(a);
      YearsAscend(a + 1, b);
    }
  }

  function YearFrom(n: int, year: int): (found: int)
    requires YearStart(year) <= n
    ensures YearStart(found) <= n < YearStart(found + 1)
    decreases n - YearStart(year)
  {
    YearsFollow(year);
    if n < YearStart(year + 1) then year else YearFrom(n, year + 1)
  }

  function YearOf(n: int): (year: int)
    ensures YearStart(year) <= n < YearStart(year + 1)
  {
    if n >= YearStart(1970) then YearFrom(n, 1970)
    else
      YearsAscend(1970 + n, 1970);
      YearFrom(n, 1970 + n)
  }

  function MonthFrom(year: int, offset: int, month: int): (found: int)
    requires 0 <= month < 12 && MonthStart(year, month) <= offset < YearLength(year)
    ensures 0 <= found < 12 && MonthStart(year, found) <= offset < MonthStart(year, found + 1)
    decreases 12 - month
  {
    if offset < MonthStart(year, month + 1) then month else MonthFrom(year, offset, month + 1)
  }

  lemma DayFound(year: int, offset: int, month: int)
    requires 0 <= month < 12 && MonthStart(year, month) <= offset < MonthStart(year, month + 1)
    ensures var date := Civil(year, month + 1, offset - MonthStart(year, month) + 1);
            Exists(date) && DayNumber(date) == YearStart(year) + offset
  {
    hide YearStart, MonthStart, DayNumber;
    DayInYear(Civil(year, month + 1, offset - MonthStart(year, month) + 1));
  }

  /** The date so many days into a year. */
  function InYear(year: int, offset: int): (date: Civil)
    requires 0 <= offset < YearLength(year)
    ensures Exists(date) && DayNumber(date) == YearStart(year) + offset
  {
    YearBegins(year);
    var month := MonthFrom(year, offset, 0);
    DayFound(year, offset, month);
    Civil(year, month + 1, offset - MonthStart(year, month) + 1)
  }

  /** The date of a day number. */
  function CivilOf(n: int): (date: Civil)
    ensures Exists(date) && DayNumber(date) == n
  {
    var year := YearOf(n);
    YearsFollow(year);
    InYear(year, n - YearStart(year))
  }

  lemma MonthsAscend(year: int, a: int, b: int)
    requires 0 <= a <= b <= 12
    ensures MonthStart(year, a) <= MonthStart(year, b) && MonthStart(year, 12) == YearLength(year)
  {
  }

  predicate Earlier(a: Civil, b: Civil) {
    a.year < b.year || (a.year == b.year && (a.month < b.month || (a.month == b.month && a.day < b.day)))
  }

  lemma DayInYear(date: Civil)
    requires Exists(date)
    ensures DayNumber(date) == YearStart(date.year) + MonthStart(date.year, date.month - 1) + date.day - 1
    ensures MonthStart(date.year, date.month - 1) + date.day <= MonthStart(date.year, date.month)
  {
    hide YearStart, MonthStart;
  }

  lemma DaysStayInYear(date: Civil)
    requires Exists(date)
    ensures YearStart(date.year) <= DayNumber(date) < YearStart(date.year + 1)
  {
    hide YearStart, MonthStart, DayNumber;
    DayInYear(date);
    YearsFollow(date.year);
    MonthsAscend(date.year, date.month, 12);
    MonthsAscend(date.year, 0, date.month - 1);
    YearBegins(date.year);
  }

  lemma YearBegins(year: int)
    ensures MonthStart(year, 0) == 0
  {
  }

  lemma EarlierIsBefore(a: Civil, b: Civil)
    requires Exists(a) && Exists(b) && Earlier(a, b)
    ensures DayNumber(a) < DayNumber(b)
  {
    hide YearStart, MonthStart, DayNumber;
    if a.year < b.year {
      DaysStayInYear(a);
      DaysStayInYear(b);
      YearsAscend(a.year + 1, b.year);
    } else {
      DayInYear(a);
      DayInYear(b);
      if a.month < b.month {
        MonthsAscend(a.year, a.month, b.month - 1);
      }
    }
  }

  /** Day numbers order real dates as their texts do, year before month before day. */
  lemma DayNumbersFollowDates(a: Civil, b: Civil)
    requires Exists(a) && Exists(b)
    ensures Earlier(a, b) <==> DayNumber(a) < DayNumber(b)
  {
    hide DayNumber, Exists;
    if Earlier(a, b) {
      EarlierIsBefore(a, b);
    } else if a != b {
      EarlierIsBefore(b, a);
    }
  }

  /** Dates and day numbers correspond one to one: a date is what its day number prints as exactly when it exists. */
  lemma CivilRoundTrip(date: Civil)
    ensures CivilOf(DayNumber(date)) == date <==> Exists(date)
  {
    hide DayNumber, Exists, CivilOf;
    if Exists(date) {
      DayNumbersFollowDates(CivilOf(DayNumber(date)), date);
      DayNumbersFollowDates(date, CivilOf(DayNumber(date)));
    }
  }

  // ---------------------------------------------------------------- the calendar everyone knows

  /** The lengths of the months, February with a day more in leap years. */
  function Lengths(year: int): seq<int> {
    var february := if year % 4 == 0 && (year % 100 != 0 || year % 400 == 0) then 29 else 28;
    [31, february, 31, 30, 31, 30, 31, 31, 30, 31, 30, 31]
  }

  lemma MonthsHaveTheirLengths(year: int, month: int, day: int)
    requires 1 <= month <= 12
    ensures DayNumber(Civil(year, month + 1, 1)) - DayNumber(Civil(year, month, 1)) == Lengths(year)[month - 1]
    ensures Exists(Civil(year, month, day)) <==> 1 <= day <= Lengths(year)[month - 1]
  {
    MonthLength(year, month);
    if month == 12 {
      NextYearFollows(year);
    } else {
      NextMonthFollows(year, month);
    }
    hide DayNumber, MonthStart, Lengths;
  }

  lemma NextMonthFollows(year: int, month: int)
    requires 1 <= month < 12
    ensures DayNumber(Civil(year, month + 1, 1)) - DayNumber(Civil(year, month, 1)) ==
              MonthStart(year, month) - MonthStart(year, month - 1)
  {
    hide YearStart, MonthStart;
    assert month / 12 == 0 && month % 12 == month && (month - 1) / 12 == 0 && (month - 1) % 12 == month - 1;
  }

  lemma NextYearFollows(year: int)
    ensures DayNumber(Civil(year, 13, 1)) - DayNumber(Civil(year, 12, 1)) == MonthStart(year, 12) - MonthStart(year, 11)
  {
    YearsFollow(year);
    YearBegins(year + 1);
    MonthsAscend(year, 0, 12);
    hide YearStart, MonthStart, YearLength;
  }

  lemma MonthLength(year: int, month: int)
    requires 1 <= month <= 12
    ensures MonthStart(year, month) - MonthStart(year, month - 1) == Lengths(year)[month - 1]
  {
  }

  /** Days count on by one, and months past December belong to the next year. */
  lemma DatesCarryOver(date: Civil)
    ensures DayNumber(date.(day := date.day + 1)) == DayNumber(date) + 1
    ensures DayNumber(date.(month := date.month + 12)) == DayNumber(date.(year := date.year + 1))
  {
    hide YearStart, MonthStart;
    assert (date.month + 12 - 1) / 12 == (date.month - 1) / 12 + 1;
    assert (date.month + 12 - 1) % 12 == (date.month - 1) % 12;
  }

  lemma KnownDays()
    ensures DayNumber(Civil(1970, 1, 1)) == 0
    ensures DayNumber(Civil(2000, 1, 1)) == 10_957
    ensures DayNumber(Civil(1900, 1, 1)) == -25_567
  {
    hide DayNumber;
    assert YearStart(1970) == 0 && YearStart(2000) == 10_957 && YearStart(1900) == -25_567;
    FirstOfJanuary(1970);
    FirstOfJanuary(2000);
    FirstOfJanuary(1900);
  }

  lemma FirstOfJanuary(year: int)
    ensures DayNumber(Civil(year, 1, 1)) == YearStart(year)
  {
    hide YearStart;
  }
}

/** The calendar of source/core/Date.cpp: seconds since the start of 1904 to a date, and back. */
module Calendar {

  const SECONDS_IN_YEAR: int := 31536000
  const SECONDS_IN_LEAP_YEAR: int := 31622400
  const DAY: int := 86400
  const BASE_YEAR: int := 1903

  /** Division as in C++: towards zero. */
  function TruncDiv(a: int, b: int): int
    requires b > 0
  {
    if a >= 0 then a / b else -((-a) / b)
  }

  function TruncMod(a: int, b: int): int
    requires b > 0
  {
    a - TruncDiv(a, b) * b
  }

  function Leaps(year: int): int {
    TruncDiv(year, 4) - TruncDiv(year, 100) + TruncDiv(year, 400)
  }

  function NumberOfLeapYears(year: int, baseYear: int): int {
    Leaps(year) - Leaps(baseYear)
  }

  predicate IsLeapYear(year: int) {
    TruncMod(year, 4) == 0 && (TruncMod(year, 100) != 0 || TruncMod(year, 400) == 0)
  }

  /** Days from the start of 1904 to the start of year 1904 + i, as the code counts them. */
  function DaysTo(i: int): int {
    365 * i + NumberOfLeapYears(BASE_YEAR + i, BASE_YEAR)
  }

  function YearStart(i: int): int {
    DAY * DaysTo(i)
  }

  // ---------------------------------------------------------------- years

  lemma DivSteps(y: int)
    requires y >= 1
    ensures y / 4 - (y - 1) / 4 == if y % 4 == 0 then 1 else 0
    ensures y / 100 - (y - 1) / 100 == if y % 100 == 0 then 1 else 0
    ensures y / 400 - (y - 1) / 400 == if y % 400 == 0 then 1 else 0
  {}

  lemma Multiples(y: int)
    ensures y % 400 == 0 ==> y % 100 == 0
    ensures y % 100 == 0 ==> y % 4 == 0
  {}

  lemma LeapIs(y: int)
    requires y >= 0
    ensures IsLeapYear(y) <==> y % 4 == 0 && (y % 100 != 0 || y % 400 == 0)
    ensures IsLeapYear(-y) <==> IsLeapYear(y)
  {}

  /** From one year to the next the count of leap years goes up by at most one.  For years up to 0 truncation
      makes it go up with the leap year before. */
  lemma LeapStep(y: int)
    ensures Leaps(y) - Leaps(y - 1) == if IsLeapYear(if y >= 1 then y else y - 1) then 1 else 0
  {
    var z := if y >= 1 then y else 1 - y;
    DivSteps(z);
    Multiples(z);
    LeapIs(z);
  }

  /** The length of a year, as the code counts, in days. */
  lemma YearLength(i: int)
    ensures var y := BASE_YEAR + 1 + i;
            DaysTo(i + 1) - DaysTo(i) == if IsLeapYear(if y >= 1 then y else y - 1) then 366 else 365
  {
    LeapStep(BASE_YEAR + 1 + i);
  }

  /** A year has the length that isLeapYear says exactly when it is after year 0, or neither it nor the year
      before is a leap year. */
  lemma YearLengthAgrees(y: int)
    ensures var days := DaysTo(y - BASE_YEAR) - DaysTo(y - BASE_YEAR - 1);
            days == (if IsLeapYear(y) then 366 else 365) <==> y >= 1 || (!IsLeapYear(y) && !IsLeapYear(y - 1))
  {
    YearLength(y - BASE_YEAR - 1);
    if y < 1 && IsLeapYear(y) {
      NoTwoLeapYears(y);
    }
  }

  lemma NoTwoLeapYears(y: int)
    requires y < 1 && IsLeapYear(y)
    ensures !IsLeapYear(y - 1)
  {}

  lemma YearsAhead(i: int)
    requires i >= 0
    ensures 365 * i <= DaysTo(i) <= 366 * i
  {}

  lemma YearsBefore(i: int)
    requires i < 0
    ensures 366 * i < DaysTo(i) <= 365 * i
  {}

  lemma {:induction false} YearsGrow(i: int, j: int)
    requires i < j
    ensures DaysTo(i) + 365 <= DaysTo(j)
    decreases j - i
  {
    YearLength(j - 1);
    if i < j - 1 {
      YearsGrow(i, j - 1);
    }
  }

  ghost predicate InYear(ws: int, i: int) {
    YearStart(i) <= ws < YearStart(i + 1)
  }

  lemma StartsGrow(i: int)
    ensures YearStart(i) < YearStart(i + 1)
  {}

  lemma {:induction false} YearAhead(ws: int, i: int) returns (j: int)
    requires YearStart(i) <= ws
    ensures InYear(ws, j)
    decreases ws - YearStart(i)
  {
    hide YearStart;
    StartsGrow(i);
    if ws < YearStart(i + 1) {
      j := i;
    } else {
      j := YearAhead(ws, i + 1);
    }
  }

  lemma {:induction false} YearBehind(ws: int, i: int) returns (j: int)
    requires ws < YearStart(i)
    ensures InYear(ws, j)
    decreases YearStart(i) - ws
  {
    hide YearStart;
    StartsGrow(i - 1);
    if YearStart(i - 1) <= ws {
      j := i - 1;
    } else {
      j := YearBehind(ws, i - 1);
    }
  }

  lemma YearExists(ws: int)
    ensures exists i :: InYear(ws, i)
  {
    var i: int;
    if YearStart(0) <= ws {
      i := YearAhead(ws, 0);
    } else {
      i := YearBehind(ws, 0);
    }
  }

  /** The year that contains a second. */
  ghost function YearOf(ws: int): (i: int)
    ensures InYear(ws, i)
  {
    YearExists(ws);
    var i :| InYear(ws, i);
    i
  }

  lemma OnlyYear(ws: int, i: int, j: int)
    requires InYear(ws, i) && InYear(ws, j)
    ensures i == j
  {
    if i < j {
      if i + 1 < j {
        YearsGrow(i + 1, j);
      }
    } else if j < i {
      if j + 1 < i {
        YearsGrow(j + 1, i);
      }
    }
  }

  /** The bounds of the search: dividing by the longest and the shortest year never misses the right one. */
  lemma SearchFinds(ws: int)
    ensures var i := YearOf(ws);
            if ws >= 0 then TruncDiv(ws, SECONDS_IN_LEAP_YEAR) <= i <= TruncDiv(ws, SECONDS_IN_YEAR)
            else TruncDiv(ws, SECONDS_IN_YEAR) <= i + 1 <= TruncDiv(ws, SECONDS_IN_LEAP_YEAR)
  {
    var i := YearOf(ws);
    if ws >= 0 {
      if i < 0 {
        YearsGrowOrSame(i + 1, 0);
      }
      YearsAhead(i);
      YearsAhead(i + 1);
    } else {
      if i >= 0 {
        YearsGrowOrSame(0, i);
      }
      YearsBefore(i);
      if i + 1 < 0 {
        YearsBefore(i + 1);
      }
    }
  }

  lemma YearsGrowOrSame(i: int, j: int)
    requires i <= j
    ensures DaysTo(0) == 0 && DaysTo(i) <= DaysTo(j)
  {}

  /** Date::getYear: the year, the seconds into it, and the weekday of its first day, 0 for Sunday. */
  method GetYear(wholeSeconds: int) returns (year: int, yearSeconds: int, weekDay: int)
    ensures InYear(wholeSeconds, year - BASE_YEAR - 1) && yearSeconds == wholeSeconds - YearStart(year - BASE_YEAR - 1)
    ensures 0 <= weekDay < 7 && weekDay == (DaysTo(year - BASE_YEAR - 1) + 5) % 7
  {
    hide IsLeapYear, NumberOfLeapYears;
    var currentYear := BASE_YEAR;
    yearSeconds := 0;
    var yearMax := TruncDiv(wholeSeconds, SECONDS_IN_YEAR);
    var yearMin := TruncDiv(wholeSeconds, SECONDS_IN_LEAP_YEAR);
    ghost var found := YearOf(wholeSeconds);
    SearchFinds(wholeSeconds);
    if wholeSeconds >= 0 {
      var i := yearMin;
      while i <= yearMax
        invariant yearMin <= i <= found
        decreases yearMax - i
      {
        var nextYear := BASE_YEAR + i + 1;
        var totalSeconds := SecondsTo(BASE_YEAR + i, i);
        var totalSecondsNext := SecondsTo(nextYear, i + 1);
        if totalSeconds <= wholeSeconds && wholeSeconds < totalSecondsNext {
          currentYear := nextYear;
          yearSeconds := wholeSeconds - totalSeconds;
          break;
        }
        i := i + 1;
      }
    } else {
      var i := yearMax;
      while i <= yearMin
        invariant yearMax <= i <= found + 1
        decreases yearMin - i
      {
        var totalSeconds := SecondsTo(BASE_YEAR + i, i);
        var totalSecondsPrevious := SecondsTo(BASE_YEAR + i - 1, i - 1);
        if totalSecondsPrevious <= wholeSeconds && wholeSeconds < totalSeconds {
          currentYear := BASE_YEAR + i;
          yearSeconds := wholeSeconds - totalSecondsPrevious;
          break;
        }
        i := i + 1;
      }
    }
    year := currentYear;
    weekDay := FirstWeekDay(year);
  }

  /** Leap years and ordinary years from 1904 to the end of the given year, in seconds. */
  method SecondsTo(year: int, years: int) returns (s: int)
    requires years == year - BASE_YEAR
    ensures s == YearStart(years)
  {
    var numberOfLeap := NumberOfLeapYears(year, BASE_YEAR);
    s := numberOfLeap * SECONDS_IN_LEAP_YEAR + (years - numberOfLeap) * SECONDS_IN_YEAR;
  }

  /** The start of 1903 was a Thursday. */
  method FirstWeekDay(year: int) returns (weekDay: int)
    ensures 0 <= weekDay < 7 && weekDay == (DaysTo(year - BASE_YEAR - 1) + 5) % 7
  {
    var numberOfLeap := NumberOfLeapYears(year - 1, BASE_YEAR);
    var totalSeconds := numberOfLeap * SECONDS_IN_LEAP_YEAR + (year - BASE_YEAR - numberOfLeap) * SECONDS_IN_YEAR;
    ghost var days := DaysTo(year - BASE_YEAR - 1) + 365;
    hide TruncDiv, TruncMod;
    assert totalSeconds == DAY * days;
    WholeDays(days);
    weekDay := TruncMod(TruncDiv(totalSeconds, DAY) + 4, 7);
    Week(days + 4);
    weekDay := if weekDay < 0 then weekDay + 7 else weekDay;
    assert (days + 4) % 7 == (days - 365 + 5) % 7 by {
      OneWeek(days - 360);
    }
  }

  lemma WholeDays(days: int)
    ensures TruncDiv(DAY * days, DAY) == days
  {}

  lemma Week(n: int)
    ensures var r := TruncMod(n, 7); (if r < 0 then r + 7 else r) == n % 7
  {}

  lemma OneWeek(n: int)
    ensures (n + 364) % 7 == n % 7
  {}

  // ---------------------------------------------------------------- dates

  datatype Date = Date(year: int, month: int, day: int, hour: int, minute: int, second: int)

  function DaysOfMonth(month: int, leap: bool): int {
    if month == 1 then (if leap then 29 else 28)
    else if month == 3 || month == 5 || month == 8 || month == 10 then 30 else 31
  }

  /** Days of the year before a month; months count from 0. */
  function MonthStart(month: nat, leap: bool): int {
    if month == 0 then 0 else MonthStart(month - 1, leap) + DaysOfMonth(month - 1, leap)
  }

  predicate ValidDate(d: Date) {
    && 0 <= d.month < 12 && 1 <= d.day <= DaysOfMonth(d.month, IsLeapYear(d.year))
    && 0 <= d.hour < 24 && 0 <= d.minute < 60 && 0 <= d.second < 60
  }

  function TimeOfDay(d: Date): int { d.hour * 3600 + d.minute * 60 + d.second }

  function DayOfYear(d: Date): int
    requires d.month >= 0
  {
    MonthStart(d.month, IsLeapYear(d.year)) + d.day - 1
  }

  function Seconds(d: Date): int
    requires d.month >= 0
  {
    YearStart(d.year - BASE_YEAR - 1) + DAY * DayOfYear(d) + TimeOfDay(d)
  }

  /** Date::DateUTCToTimestamp, in whole seconds.  Months up to 12 are in the table. */
  method DateUTCToTimestamp(d: Date) returns (totalSeconds: int)
    requires d.month <= 12
    ensures d.month >= 0 ==> totalSeconds == Seconds(d)
  {
    hide IsLeapYear, NumberOfLeapYears;
    totalSeconds := SecondsTo(d.year - 1, d.year - 1 - BASE_YEAR);
    var leap := IsLeapYear(d.year);
    ghost var start := totalSeconds;
    var i := 0;
    while i < d.month
      invariant 0 <= i && (d.month >= 0 ==> i <= d.month) && totalSeconds == start + DAY * MonthStart(i, leap)
    {
      totalSeconds := totalSeconds + DaysOfMonth(i, leap) * DAY;
      i := i + 1;
    }
    totalSeconds := totalSeconds + (d.day - 1) * DAY;
    totalSeconds := totalSeconds + (d.hour * 3600 + d.minute * 60 + d.second);
  }

  lemma {:induction false} MonthsGrow(m: nat, n: nat, leap: bool)
    requires m < n
    ensures MonthStart(m, leap) + DaysOfMonth(m, leap) <= MonthStart(n, leap)
    decreases n
  {
    if m < n - 1 {
      MonthsGrow(m, n - 1, leap);
    }
  }

  lemma YearDays(leap: bool)
    ensures MonthStart(12, leap) == if leap then 366 else 365
  {
    hide MonthStart;
    NoMonths(leap);
    for i := 0 to 12
      invariant MonthStart(i, leap) == (if i == 0 then 0 else if i == 1 then 31 else DaysBefore(i) + if leap then 1 else 0)
    {
      NextMonth(i, leap);
    }
  }

  /** Days before month i from March on, in an ordinary year. */
  function DaysBefore(i: nat): int {
    [0, 31, 59, 90, 120, 151, 181, 212, 243, 273, 304, 334, 365][if i <= 12 then i else 12]
  }

  lemma TimeInDay(d: Date)
    requires ValidDate(d)
    ensures 0 <= TimeOfDay(d) < DAY
  {}

  lemma DayInYear(d: Date)
    requires ValidDate(d)
    ensures MonthStart(d.month, IsLeapYear(d.year)) <= DayOfYear(d) < MonthStart(d.month + 1, IsLeapYear(d.year)) <= (if IsLeapYear(d.year) then 366 else 365)
    ensures 0 <= DayOfYear(d)
  {
    var leap := IsLeapYear(d.year);
    hide IsLeapYear;
    YearDays(leap);
    if d.month < 11 {
      MonthsGrow(d.month + 1, 12, leap);
    }
    if d.month > 0 {
      MonthsGrow(0, d.month, leap);
    }
  }

  predicate Before(d: Date, e: Date) {
    || d.year < e.year
    || (d.year == e.year && (d.month < e.month
    || (d.month == e.month && (d.day < e.day
    || (d.day == e.day && (d.hour < e.hour
    || (d.hour == e.hour && (d.minute < e.minute
    || (d.minute == e.minute && d.second < e.second)))))))))
  }

  lemma InItsYear(d: Date)
    requires ValidDate(d) && d.year >= 1
    ensures InYear(Seconds(d), d.year - BASE_YEAR - 1)
  {
    hide IsLeapYear, MonthStart, DaysTo, TimeOfDay, DaysOfMonth;
    TimeInDay(d);
    DayInYear(d);
    YearLength(d.year - BASE_YEAR - 1);
  }

  /** Later dates have more seconds. */
  lemma StrictlyMonotone(d: Date, e: Date)
    requires ValidDate(d) && ValidDate(e) && d.year >= 1 && e.year >= 1 && Before(d, e)
    ensures Seconds(d) < Seconds(e)
  {
    if d.year < e.year {
      InItsYear(d);
      InItsYear(e);
      YearsUp(d.year - BASE_YEAR, e.year - BASE_YEAR - 1);
    } else {
      SameYear(d, e);
    }
  }

  lemma YearsUp(i: int, j: int)
    requires i <= j
    ensures YearStart(i) <= YearStart(j)
  {}

  lemma SameYear(d: Date, e: Date)
    requires ValidDate(d) && ValidDate(e) && d.year == e.year && Before(d, e)
    ensures Seconds(d) < Seconds(e)
  {
    hide IsLeapYear, DaysTo, MonthStart;
    TimeInDay(d);
    TimeInDay(e);
    if d.month < e.month {
      MonthsGrow(d.month, e.month, IsLeapYear(d.year));
    }
  }

  /** No two dates have the same seconds. */
  lemma SameSeconds(d: Date, e: Date)
    requires ValidDate(d) && ValidDate(e) && d.year >= 1 && e.year >= 1 && Seconds(d) == Seconds(e)
    ensures d == e
  {
    if Before(d, e) {
      StrictlyMonotone(d, e);
    } else if Before(e, d) {
      StrictlyMonotone(e, d);
    }
  }

  /** The weekday of a second: the count of days since the Friday that 1904 began with. */
  function WeekDay(ws: int): int { (ws / DAY + 5) % 7 }

  /** The weekday advances by one from each day to the next, and comes round after seven. */
  lemma WeekDayAdvances(ws: int)
    ensures WeekDay(ws + DAY) == (WeekDay(ws) + 1) % 7 && WeekDay(ws + 7 * DAY) == WeekDay(ws)
    ensures WeekDay(ws - ws % DAY) == WeekDay(ws)
  {
    assert (ws + DAY) / DAY == ws / DAY + 1;
    assert (ws + 7 * DAY) / DAY == ws / DAY + 7;
  }

  /** The calendar part of Date::getDate.  For years from 1 on it gives the one date that has these seconds.
      The month loop finds no month, and leaves -2, exactly when the code counts a leap day in a year that
      isLeapYear does not call a leap year and the second lies in its last day. */
  method GetDate(wholeSeconds: int) returns (d: Date, weekDay: int, secondsOfYear: int)
    ensures InYear(wholeSeconds, d.year - BASE_YEAR - 1) && secondsOfYear == wholeSeconds - YearStart(d.year - BASE_YEAR - 1)
    ensures weekDay == WeekDay(wholeSeconds)
    ensures d.month == -2 <==> d.year <= 0 && IsLeapYear(d.year - 1) && secondsOfYear >= 365 * DAY
    ensures d.month != -2 ==> ValidDate(d) && Seconds(d) == wholeSeconds
    ensures forall e :: ValidDate(e) && e.year >= 1 && Seconds(e) == wholeSeconds ==> e == d
  {
    hide IsLeapYear, DaysTo, MonthStart, DaysOfMonth, TruncDiv, TruncMod, YearStart, WeekDay;
    var firstWeekDay, year, month, secondsOfMonth;
    year, secondsOfYear, firstWeekDay := GetYear(wholeSeconds);
    LastDay(wholeSeconds, year, secondsOfYear);
    month, secondsOfMonth := FindMonth(secondsOfYear, IsLeapYear(year));
    d := DateIn(year, month, secondsOfMonth);
    weekDay := TruncMod(TruncDiv(secondsOfYear, DAY) + firstWeekDay, 7);
    YearStartIs(year - BASE_YEAR - 1);
    WeekDayIs(wholeSeconds, DaysTo(year - BASE_YEAR - 1), secondsOfYear, firstWeekDay);
    if month != -2 {
      DateFits(d, secondsOfYear, secondsOfMonth);
    }
    forall e | ValidDate(e) && e.year >= 1 && Seconds(e) == wholeSeconds ensures e == d {
      InItsYear(e);
      OnlyYear(wholeSeconds, e.year - BASE_YEAR - 1, year - BASE_YEAR - 1);
      SameSeconds(e, d);
    }
  }

  lemma YearStartIs(i: int)
    ensures YearStart(i) == DAY * DaysTo(i)
  {}

  /** The month loop; -2 when no month contains the second. */
  method FindMonth(secondsOfYear: int, leap: bool) returns (month: int, secondsOfMonth: int)
    requires secondsOfYear >= 0
    ensures month == -2 <==> secondsOfYear >= DAY * (if leap then 366 else 365)
    ensures month != -2 ==>
              0 <= month < 12 && secondsOfMonth == secondsOfYear - DAY * MonthStart(month, leap) && 0 <= secondsOfMonth < DAY * DaysOfMonth(month, leap)
  {
    hide MonthStart, DaysOfMonth;
    month, secondsOfMonth := -2, -2;
    var seconds := 0;
    var i := 0;
    NoMonths(leap);
    YearDays(leap);
    while i < 12
      invariant 0 <= i <= 12 && month == -2 && seconds == DAY * MonthStart(i, leap) <= secondsOfYear
    {
      NextMonth(i, leap);
      secondsOfMonth := seconds;
      seconds := seconds + DAY * DaysOfMonth(i, leap);
      if seconds > secondsOfYear {
        MonthsUp(i + 1, leap);
        month := i;
        secondsOfMonth := secondsOfYear - secondsOfMonth;
        break;
      }
      i := i + 1;
    }
  }

  lemma MonthsUp(m: nat, leap: bool)
    requires m <= 12
    ensures MonthStart(m, leap) <= MonthStart(12, leap)
  {
    if m < 12 {
      MonthsGrow(m, 12, leap);
    }
  }

  /** Splits the seconds of a month. */
  method DateIn(year: int, month: int, secondsOfMonth: int) returns (d: Date)
    ensures d.year == year && d.month == month
    ensures secondsOfMonth >= 0 ==>
              && DAY * (d.day - 1) + TimeOfDay(d) == secondsOfMonth && d.day >= 1
              && 0 <= d.hour < 24 && 0 <= d.minute < 60 && 0 <= d.second < 60
  {
    var days, secondsOfHour := TruncDiv(secondsOfMonth, DAY), TruncMod(secondsOfMonth, DAY);
    var hours, secondsOfMinutes := TruncDiv(secondsOfHour, 3600), TruncMod(secondsOfHour, 3600);
    d := Date(year, month, days + 1, hours, TruncDiv(secondsOfMinutes, 60), TruncMod(secondsOfMinutes, 60));
  }

  lemma DateFits(d: Date, secondsOfYear: int, secondsOfMonth: int)
    requires 0 <= d.month < 12 && DAY * (d.day - 1) + TimeOfDay(d) == secondsOfMonth && d.day >= 1
    requires 0 <= d.hour < 24 && 0 <= d.minute < 60 && 0 <= d.second < 60
    requires secondsOfMonth == secondsOfYear - DAY * MonthStart(d.month, IsLeapYear(d.year))
    requires secondsOfMonth < DAY * DaysOfMonth(d.month, IsLeapYear(d.year))
    ensures ValidDate(d) && Seconds(d) == YearStart(d.year - BASE_YEAR - 1) + secondsOfYear
  {}

  lemma NoMonths(leap: bool)
    ensures MonthStart(0, leap) == 0
  {}

  lemma NextMonth(i: nat, leap: bool)
    ensures MonthStart(i + 1, leap) == MonthStart(i, leap) + DaysOfMonth(i, leap)
  {}

  lemma WeekDayIs(ws: int, days: int, secondsOfYear: int, first: int)
    requires ws == DAY * days + secondsOfYear && secondsOfYear >= 0 && first == (days + 5) % 7
    ensures TruncMod(TruncDiv(secondsOfYear, DAY) + first, 7) == WeekDay(ws)
  {}

  /** When a year, as the code counts it, is longer than isLeapYear says. */
  lemma LastDay(ws: int, year: int, secondsOfYear: int)
    requires InYear(ws, year - BASE_YEAR - 1) && secondsOfYear == ws - YearStart(year - BASE_YEAR - 1)
    ensures secondsOfYear >= 0
    ensures secondsOfYear >= DAY * (if IsLeapYear(year) then 366 else 365) <==>
              year <= 0 && IsLeapYear(year - 1) && secondsOfYear >= 365 * DAY
  {
    hide DaysTo, IsLeapYear;
    YearLength(year - BASE_YEAR - 1);
    if year <= 0 && IsLeapYear(year) {
      NoTwoLeapYears(year);
    }
  }

  // ---------------------------------------------------------------- the calendar in its own terms

  /** The days before a month, months counting from 0, in the closed form for the year that begins in March: from
      there on lengths repeat every five months.  This fixes the length of every month. */
  lemma MonthStarts(m: nat, leap: bool)
    requires m <= 12
    ensures MonthStart(0, leap) == 0 && MonthStart(1, leap) == 31
    ensures m >= 2 ==> MonthStart(m, leap) == 59 + (if leap then 1 else 0) + (153 * (m - 2) + 2) / 5
  {
    MonthStartTable(leap);
    assert MonthStart(m, leap) == if m < 2 then 31 * m else DaysBefore(m) + if leap then 1 else 0;
  }

  lemma MonthStartTable(leap: bool)
    ensures forall m: nat :: m <= 12 ==> MonthStart(m, leap) == DaysBefore(m) + if leap && m >= 2 then 1 else 0
  {
    var extra := if leap then 1 else 0;
    NextMonth(0, leap);
    NextMonth(1, leap);
    NextMonth(2, leap);
    NextMonth(3, leap);
    NextMonth(4, leap);
    NextMonth(5, leap);
    NextMonth(6, leap);
    NextMonth(7, leap);
    NextMonth(8, leap);
    NextMonth(9, leap);
    NextMonth(10, leap);
    NextMonth(11, leap);
  }

  /** The lengths of the months: thirty days for April, June, September and November, and 31 for the rest, but for
      February. */
  lemma MonthLengths(m: nat, leap: bool)
    requires m < 12
    ensures var days := MonthStart(m + 1, leap) - MonthStart(m, leap);
            days == DaysOfMonth(m, leap) && days == (if m == 1 then if leap then 29 else 28 else if m in {3, 5, 8, 10} then 30 else 31)
  {
    MonthStarts(m, leap);
    MonthStarts(m + 1, leap);
    NextMonth(m, leap);
  }

  /** Four hundred years have 97 leap years, and so 146097 days, which are whole weeks. */
  lemma FourCenturies(y: int)
    requires y >= 0
    ensures NumberOfLeapYears(y + 400, y) == 97
    ensures DaysTo(y + 400 - BASE_YEAR) - DaysTo(y - BASE_YEAR) == 146097 && 146097 % 7 == 0
  {}

  lemma KnownYears()
    ensures DaysTo(-1) == -365 && DaysTo(0) == 0 && DaysTo(66) == 24107 && DaysTo(96) == 35064 && DaysTo(97) == 35430
    ensures IsLeapYear(1904) && !IsLeapYear(1903) && !IsLeapYear(1970) && IsLeapYear(2000) && !IsLeapYear(2001) && !IsLeapYear(1900)
  {}

  /** 1904 began on a Friday, with second 0. */
  lemma Epoch(d: Date)
    requires d == Date(1904, 0, 1, 0, 0, 0)
    ensures Seconds(d) == 0 && WeekDay(Seconds(d)) == 5
  {
    hide *;
    KnownYears();
    DateAt(d, 0, 0);
  }

  /** Unix time begins on a Thursday, 2082844800 seconds later. */
  lemma UnixEpoch(d: Date)
    requires d == Date(1970, 0, 1, 0, 0, 0)
    ensures Seconds(d) == 2082844800 && WeekDay(Seconds(d)) == 4
  {
    hide *;
    KnownYears();
    DateAt(d, 24107, 0);
  }

  /** 2001 had a 31 March. */
  lemma LastOfMarch(d: Date)
    requires d == Date(2001, 2, 31, 0, 0, 0)
    ensures Seconds(d) == 3068841600 && ValidDate(d)
  {
    hide *;
    KnownYears();
    MonthStarts(2, false);
    DateAt(d, 35519, 59);
    InMonth(d);
  }

  /** The second before 1904 was the last of 1903. */
  lemma LastSecond(d: Date)
    requires d == Date(1903, 11, 31, 23, 59, 59)
    ensures Seconds(d) == -1 && ValidDate(d)
  {
    hide *;
    KnownYears();
    MonthStarts(11, false);
    DateAt(d, -1, 334);
    InMonth(d);
  }

  lemma DateAt(d: Date, days: int, start: int)
    requires 0 <= d.month <= 12 && (d.month == 0 ==> start == 0) && (d.month > 0 ==> MonthStart(d.month, IsLeapYear(d.year)) == start)
    requires DaysTo(d.year - 1904) + start + d.day - 1 == days
    requires 0 <= d.hour < 24 && 0 <= d.minute < 60 && 0 <= d.second < 60
    ensures Seconds(d) == 86400 * days + 3600 * d.hour + 60 * d.minute + d.second
    ensures WeekDay(Seconds(d)) == (days + 5) % 7
  {}

  lemma InMonth(d: Date)
    requires d.month == 2 || d.month == 11
    requires 1 <= d.day <= 31 && 0 <= d.hour < 24 && 0 <= d.minute < 60 && 0 <= d.second < 60
    ensures ValidDate(d)
  {}
}

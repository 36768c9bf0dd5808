/** The proleptic Gregorian calendar and the day numbers of ECMA-262, section 21.4.1:
    day 0 is 1970-01-01. */
module CivilDate {
  datatype Civil = Civil(year: int, month: int, day: int)

  predicate Leap(y: int) { y % 4 == 0 && (y % 100 != 0 || y % 400 == 0) }

  function DaysInYear(y: int): int { if Leap(y) then 366 else 365 }

  function DaysInMonth(y: int, m: int): int {
    if m == 2 then (if Leap(y) then 29 else 28)
    else if m == 4 || m == 6 || m == 9 || m == 11 then 30 else 31
  }

  predicate Valid(c: Civil) { 1 <= c.month <= 12 && 1 <= c.day <= DaysInMonth(c.year, c.month) }

  /** The number of the first day of year y. */
  function DayFromYear(y: int): int {
    365 * (y - 1970) + (y - 1969) / 4 - (y - 1901) / 100 + (y - 1601) / 400
  }

  lemma NextYearStarts(y: int)
    ensures DayFromYear(y + 1) == DayFromYear(y) + DaysInYear(y)
  {
    EveryFourth(y);
    EveryHundredth(y);
    EveryFourHundredth(y);
  }

  lemma EveryFourth(y: int)
    ensures (y - 1968) / 4 - (y - 1969) / 4 == if y % 4 == 0 then 1 else 0
  {
  }

  lemma EveryHundredth(y: int)
    ensures (y - 1900) / 100 - (y - 1901) / 100 == if y % 100 == 0 then 1 else 0
    ensures y % 100 == 0 ==> y % 4 == 0
  {
    assert y % 100 == 0 ==> y == 4 * (25 * (y / 100));
  }

  lemma EveryFourHundredth(y: int)
    ensures (y - 1600) / 400 - (y - 1601) / 400 == if y % 400 == 0 then 1 else 0
    ensures y % 400 == 0 ==> y % 100 == 0
  {
    assert y % 400 == 0 ==> y == 100 * (4 * (y / 400));
  }

  lemma {:induction false} YearsAreOrdered(y: int, z: int)
    requires y <= z
    ensures DayFromYear(z) - DayFromYear(y) >= 365 * (z - y)
    decreases z - y
  {
    if y < z {
      YearsAreOrdered(y, z - 1);
      NextYearStarts(z - 1);
    }
  }

  predicate InYear(n: int, y: int) { DayFromYear(y) <= n < DayFromYear(y + 1) }

  /** The year that contains day n. */
  function YearFromDay(n: int): (y: int)
    ensures InYear(n, y)
  {
    var e := 1970 + 400 * n / 146097;
    EstimateIsClose(n);
    if n < DayFromYear(e) then e - 1 else if n < DayFromYear(e + 1) then e else e + 1
  }

  lemma EstimateIsClose(n: int)
    ensures var e := 1970 + 400 * n / 146097; DayFromYear(e - 1) <= n < DayFromYear(e + 2)
  {
    var q := 400 * n / 146097;
    assert 146097 * q <= 400 * n < 146097 * q + 146097;
  }

  /** Days of year y before its month m; month 13 stands for the end of the year. */
  function DaysBefore(y: int, m: int): int {
    if m <= 1 then 0 else DaysBefore(y, m - 1) + DaysInMonth(y, m - 1)
  }

  lemma TwelveMonthsFillTheYear(y: int)
    ensures DaysBefore(y, 13) == DaysInYear(y)
  {
    assert DaysBefore(y, 2) == 31;
    assert DaysBefore(y, 3) == DaysInYear(y) - 306;
    assert DaysBefore(y, 5) == DaysInYear(y) - 245;
    assert DaysBefore(y, 7) == DaysInYear(y) - 184;
    assert DaysBefore(y, 9) == DaysInYear(y) - 122;
    assert DaysBefore(y, 11) == DaysInYear(y) - 61;
  }

  lemma {:induction false} MonthsAreOrdered(y: int, m: int, k: int)
    requires 1 <= m <= k
    ensures DaysBefore(y, k) >= DaysBefore(y, m) + 28 * (k - m)
    decreases k - m
  {
    if m < k {
      MonthsAreOrdered(y, m, k - 1);
    }
  }

  /** The last month, at most m, of year y that starts on or before its day d. */
  function MonthFromDay(y: int, d: int, m: int): (r: int)
    requires 1 <= m && 0 <= d < DaysBefore(y, m + 1)
    ensures 1 <= r <= m && DaysBefore(y, r) <= d < DaysBefore(y, r + 1)
  {
    if m == 1 || DaysBefore(y, m) <= d then m else MonthFromDay(y, d, m - 1)
  }

  /** The day number of a civil date. */
  function ToDay(c: Civil): int { DayFromYear(c.year) + DaysBefore(c.year, c.month) + c.day - 1 }

  /** The civil date of a day number. */
  function FromDay(n: int): Civil {
    var y := YearFromDay(n);
    NextYearStarts(y);
    TwelveMonthsFillTheYear(y);
    var d := n - DayFromYear(y);
    var m := MonthFromDay(y, d, 12);
    Civil(y, m, d - DaysBefore(y, m) + 1)
  }

  lemma ToDayOfFromDay(n: int)
    ensures Valid(FromDay(n)) && ToDay(FromDay(n)) == n
  {
    NextYearStarts(YearFromDay(n));
    TwelveMonthsFillTheYear(YearFromDay(n));
  }

  lemma DayOfYearFits(c: Civil)
    requires Valid(c)
    ensures DaysBefore(c.year, c.month) <= ToDay(c) - DayFromYear(c.year) < DaysBefore(c.year, c.month + 1)
    ensures InYear(ToDay(c), c.year)
  {
    MonthsAreOrdered(c.year, 1, c.month);
    MonthsAreOrdered(c.year, c.month + 1, 13);
    TwelveMonthsFillTheYear(c.year);
    NextYearStarts(c.year);
  }

  /** Day numbers order valid dates as year, month and day do. */
  lemma ToDayOrder(a: Civil, b: Civil)
    requires Valid(a) && Valid(b)
    ensures ToDay(a) < ToDay(b) <==>
      a.year < b.year || (a.year == b.year && (a.month < b.month || (a.month == b.month && a.day < b.day)))
    ensures ToDay(a) == ToDay(b) <==> a == b
  {
    if a.year == b.year && a.month == b.month {
      assert ToDay(b) - ToDay(a) == b.day - a.day;
    } else {
      hide ToDay, Valid;
      EarlierMonth(a, b);
      EarlierMonth(b, a);
    }
  }

  lemma EarlierMonth(a: Civil, b: Civil)
    requires Valid(a) && Valid(b)
    ensures a.year < b.year || (a.year == b.year && a.month < b.month) ==> ToDay(a) < ToDay(b)
  {
    DayOfYearFits(a);
    DayOfYearFits(b);
    hide ToDay, DayFromYear, DaysBefore;
    if a.year < b.year {
      YearsAreOrdered(a.year + 1, b.year);
    } else if a.year == b.year && a.month < b.month {
      MonthsAreOrdered(a.year, a.month + 1, b.month);
    }
  }

  lemma FromDayOfToDay(c: Civil)
    requires Valid(c)
    ensures FromDay(ToDay(c)) == c
  {
    ToDayOfFromDay(ToDay(c));
    ToDayOrder(FromDay(ToDay(c)), c);
  }

  // ---- the calendar told day by day, without day numbers ----

  function Tomorrow(c: Civil): Civil {
    if c.day < DaysInMonth(c.year, c.month) then Civil(c.year, c.month, c.day + 1)
    else if c.month < 12 then Civil(c.year, c.month + 1, 1)
    else Civil(c.year + 1, 1, 1)
  }

  lemma TomorrowIsNextDay(c: Civil)
    requires Valid(c)
    ensures Valid(Tomorrow(c)) && ToDay(Tomorrow(c)) == ToDay(c) + 1
  {
    NextYearStarts(c.year);
    TwelveMonthsFillTheYear(c.year);
  }

  function After(c: Civil, n: nat): Civil {
    if n == 0 then c else Tomorrow(After(c, n - 1))
  }

  /** Adding n to the day number is n steps through the calendar. */
  lemma {:induction false} AfterIsAddition(c: Civil, n: nat)
    requires Valid(c)
    ensures Valid(After(c, n)) && ToDay(After(c, n)) == ToDay(c) + n
  {
    if n > 0 {
      AfterIsAddition(c, n - 1);
      TomorrowIsNextDay(After(c, n - 1));
    }
  }

  /** 0 is Sunday, as in getUTCDay. */
  function WeekDay(n: int): int { (n + 4) % 7 }

  /** The first days of the months, counted from New Year: the table of ECMA-262, section 21.4.1.4. */
  const MONTH_STARTS: seq<int> := [0, 31, 59, 90, 120, 151, 181, 212, 243, 273, 304, 334]

  lemma MonthStarts(y: int, m: int)
    requires 1 <= m <= 12
    ensures DaysBefore(y, m) == MONTH_STARTS[m - 1] + if m > 2 && Leap(y) then 1 else 0
  {
    assert DaysBefore(y, 2) == 31;
    assert DaysBefore(y, 3) == 59 + if Leap(y) then 1 else 0;
    assert DaysBefore(y, 5) == DaysBefore(y, 3) + 61;
    assert DaysBefore(y, 7) == DaysBefore(y, 5) + 61;
    assert DaysBefore(y, 9) == DaysBefore(y, 7) + 62;
    assert DaysBefore(y, 11) == DaysBefore(y, 9) + 61;
  }

  /** Day 0 is Thursday, 1 January 1970, and the weekdays follow one another. */
  lemma Epoch(n: int)
    ensures ToDay(Civil(1970, 1, 1)) == 0 && WeekDay(0) == 4
    ensures WeekDay(n + 1) == if WeekDay(n) == 6 then 0 else WeekDay(n) + 1
  {
    hide ToDay;
    FirstDay();
    SevenDays(n + 4);
  }

  lemma FirstDay()
    ensures ToDay(Civil(1970, 1, 1)) == 0
  {
  }

  lemma SevenDays(n: int)
    ensures (n + 1) % 7 == if n % 7 == 6 then 0 else n % 7 + 1
  {
    var q := n / 7;
    assert n == 7 * q + n % 7;
  }
}

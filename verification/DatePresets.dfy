/** apps/frontendall/services/date-presets.js: shifting ISO dates and the preset windows. */
module DatePresets {
  import opened Prelude
  import opened CivilDate
  import opened Decimal

  // ---- JavaScript dates, in whole UTC days (ECMA-262, section 21.4.1) ----

  /** MakeDay: months and days out of range carry over. */
  function MakeDay(year: int, month0: int, date: int): int {
    ToDay(Civil(year + month0 / 12, month0 % 12 + 1, 1)) + date - 1
  }

  /** MakeFullYear: Date.UTC reads the years 0 to 99 as 1900 to 1999. */
  function FullYear(y: int): int { if 0 <= y <= 99 then 1900 + y else y }

  const MAX_DAY := 100_000_000

  /** The day Date.UTC makes of year, month and day as written. */
  function UtcDay(p: Civil): int { MakeDay(FullYear(p.year), p.month - 1, p.day) }

  /** TimeClip: None is the invalid date. */
  function Clip(n: int): Option<int> { if -MAX_DAY <= n <= MAX_DAY then Some(n) else None }

  lemma MakeDayIsDayNumber(c: Civil)
    requires Valid(c)
    ensures MakeDay(c.year, c.month - 1, c.day) == ToDay(c)
  {
  }

  lemma MakeDayAddsDays(c: Civil, n: int)
    requires Valid(c)
    ensures MakeDay(c.year, c.month - 1, c.day + n) == ToDay(c) + n
  {
  }

  // ---- text ----

  /** The date part of toISOString: four digits, or a sign and six digits outside 0 to 9999. */
  function IsoDate(c: Civil): string
    requires Valid(c)
  {
    (if 0 <= c.year <= 9999 then Pad(c.year, 4)
     else if c.year > 0 then "+" + Pad(c.year, 6) else "-" + Pad(-c.year, 6))
    + "-" + Pad(c.month, 2) + "-" + Pad(c.day, 2)
  }

  predicate IsoShape(s: string) {
    |s| == 10 && s[4] == '-' && s[7] == '-' && AllDigits(s[..4]) && AllDigits(s[5..7]) && AllDigits(s[8..])
  }

  /** split('-').map(Number) on a string of that shape. */
  function Fields(s: string): Civil
    requires IsoShape(s)
  {
    Civil(Value(s[..4]), Value(s[5..7]), Value(s[8..]))
  }

  predicate IsoValid(s: string) { IsoShape(s) && Valid(Fields(s)) }

  lemma SplitFields(y: string, m: string, d: string)
    requires |y| == 4 && |m| == 2 == |d|
    ensures var s := y + "-" + m + "-" + d;
      |s| == 10 && s[4] == '-' && s[7] == '-' && s[..4] == y && s[5..7] == m && s[8..] == d
  {
  }

  lemma FieldsOfIso(c: Civil)
    requires Valid(c) && 0 <= c.year <= 9999
    ensures IsoShape(IsoDate(c)) && Fields(IsoDate(c)) == c
  {
    PadWidths(c);
    SplitFields(Pad(c.year, 4), Pad(c.month, 2), Pad(c.day, 2));
  }

  lemma PadWidths(c: Civil)
    requires Valid(c) && 0 <= c.year <= 9999
    ensures |Pad(c.year, 4)| == 4 && |Pad(c.month, 2)| == 2 == |Pad(c.day, 2)|
    ensures AllDigits(Pad(c.year, 4)) && AllDigits(Pad(c.month, 2)) && AllDigits(Pad(c.day, 2))
    ensures Value(Pad(c.year, 4)) == c.year && Value(Pad(c.month, 2)) == c.month && Value(Pad(c.day, 2)) == c.day
  {
    hide Pad, Value, Pow10;
    Powers();
    PadDigits(c.year, 4);
    PadDigits(c.month, 2);
    PadDigits(c.day, 2);
    ValueOfPad(c.year, 4);
    ValueOfPad(c.month, 2);
    ValueOfPad(c.day, 2);
  }

  lemma IsoOfFields(s: string)
    requires IsoValid(s)
    ensures 0 <= Fields(s).year <= 9999 && IsoDate(Fields(s)) == s
  {
    Powers();
    PadOfValue(s[..4]);
    PadOfValue(s[5..7]);
    PadOfValue(s[8..]);
    assert s == s[..4] + "-" + s[5..7] + "-" + s[8..];
  }

  lemma LexJoin(a: string, b: string, u: string, v: string)
    requires |a| == |b| && |u| == |v|
    ensures LexLess(a + "-" + u, b + "-" + v) <==> LexLess(a, b) || (a == b && LexLess(u, v))
    ensures a + "-" + u == b + "-" + v <==> a == b && u == v
  {
    var sep := "-";
    LexConcat(a + sep, b + sep, u, v);
    LexConcat(a, b, sep, sep);
  }

  lemma LexOfThreeFields(y: string, m: string, d: string, y': string, m': string, d': string)
    requires |y| == |y'| && |m| == |m'| && |d| == |d'|
    ensures var s, s' := y + "-" + m + "-" + d, y' + "-" + m' + "-" + d';
      && (LexLess(s, s') <==> LexLess(y, y') || (y == y' && (LexLess(m, m') || (m == m' && LexLess(d, d')))))
      && (s == s' <==> y == y' && m == m' && d == d')
  {
    var p, p' := y + "-" + m, y' + "-" + m';
    LexJoin(y, y', m, m');
    assert LexLess(p, p') <==> LexLess(y, y') || (y == y' && LexLess(m, m'));
    LexJoin(p, p', d, d');
  }

  /** Comparing ISO dates as strings compares them as days. */
  lemma IsoOrderIsChronological(a: Civil, b: Civil)
    requires Valid(a) && Valid(b) && 0 <= a.year <= 9999 && 0 <= b.year <= 9999
    ensures |IsoDate(a)| == |IsoDate(b)|
    ensures LexLess(IsoDate(a), IsoDate(b)) <==> ToDay(a) < ToDay(b)
    ensures IsoDate(a) == IsoDate(b) <==> a == b
  {
    hide ToDay, Pad, LexLess;
    PadWidths(a);
    PadWidths(b);
    Powers();
    PadOrder(a.year, b.year, 4);
    PadOrder(a.month, b.month, 2);
    PadOrder(a.day, b.day, 2);
    ToDayOrder(a, b);
    LexOfThreeFields(Pad(a.year, 4), Pad(a.month, 2), Pad(a.day, 2), Pad(b.year, 4), Pad(b.month, 2), Pad(b.day, 2));
  }

  // ---- shiftISO ----

  /** What shiftISO returns; None stands for the RangeError of toISOString on an invalid date. */
  function ShiftISO(iso: string, days: int): Option<string>
    requires IsoShape(iso)
  {
    var p := Fields(iso);
    match Clip(UtcDay(p))
    case None => None
    case Some(t) =>
      var c := FromDay(t);
      match Clip(MakeDay(c.year, c.month - 1, c.day + days))
      case None => None
      case Some(u) => Some(Slice10(u))
  }

  function Slice10(u: int): string {
    ToDayOfFromDay(u);
    var s := IsoDate(FromDay(u));
    if |s| <= 10 then s else s[..10]
  }

  /** The local Date object of shiftISO. */
  class JsDate {
    var day: Option<int>

    constructor (year: int, month0: int, date: int)
      ensures day == Clip(MakeDay(FullYear(year), month0, date))
    {
      day := Clip(MakeDay(FullYear(year), month0, date));
    }

    method GetUTCDate() returns (d: Option<int>)
      ensures d == if day.None? then None else Some(FromDay(day.value).day)
    {
      if day.None? {
        return None;
      }
      return Some(FromDay(day.value).day);
    }

    method SetUTCDate(d: Option<int>)
      modifies this
      ensures day == if old(day).None? || d.None? then None
                     else Clip(MakeDay(FromDay(old(day).value).year, FromDay(old(day).value).month - 1, d.value))
    {
      if day.None? || d.None? {
        day := None;
        return;
      }
      var c := FromDay(day.value);
      day := Clip(MakeDay(c.year, c.month - 1, d.value));
    }
  }

  method ShiftIsoDate(iso: string, days: int) returns (r: Option<string>)
    requires IsoShape(iso)
    ensures r == ShiftISO(iso, days)
  {
    hide ToDay, FromDay, Slice10, MakeDay, Fields;
    var p := Fields(iso);
    var dt := new JsDate(p.year, p.month - 1, p.day);
    assert dt.day == Clip(UtcDay(p));
    var d := dt.GetUTCDate();
    dt.SetUTCDate(if d.None? then None else Some(d.value + days));
    if dt.day.None? {
      return None;
    }
    return Some(Slice10(dt.day.value));
  }

  // ---- shifting is a group action ----

  lemma FourDigitYearsAreInRange(c: Civil)
    requires Valid(c) && 0 <= c.year <= 9999
    ensures -719528 <= ToDay(c) < 2932897
  {
    DayOfYearFits(c);
    MonthsAreOrdered(c.year, 1, c.month);
    YearsAreOrdered(0, c.year);
    YearsAreOrdered(c.year + 1, 10000);
  }

  predicate FourDigits(c: Civil) { Valid(c) && 100 <= c.year <= 9999 }

  /** What shiftISO answers once Date.UTC has read the string as day t. */
  lemma ShiftFromDay(iso: string, t: int, n: int)
    requires IsoShape(iso)
    requires Clip(UtcDay(Fields(iso))) == Some(t)
    ensures ShiftISO(iso, n) == match Clip(t + n) case None => None case Some(u) => Some(Slice10(u))
  {
    hide ToDay, FromDay, Slice10, MakeDay, UtcDay, Fields;
    ToDayOfFromDay(t);
    MakeDayAddsDays(FromDay(t), n);
  }

  lemma ShiftMovesDay(c: Civil, n: int)
    requires FourDigits(c)
    ensures IsoShape(IsoDate(c))
    ensures ShiftISO(IsoDate(c), n) == match Clip(ToDay(c) + n) case None => None case Some(u) => Some(Slice10(u))
  {
    hide ToDay, FromDay, Slice10, MakeDay, UtcDay, IsoDate, ShiftISO;
    FieldsOfIso(c);
    FourDigitYearsAreInRange(c);
    UtcDayIsDayNumber(c);
    ShiftFromDay(IsoDate(c), ToDay(c), n);
  }

  /** Shifting moves the day number by n: the answer is the date m that lies n days from c. */
  lemma ShiftIsAddition(c: Civil, m: Civil, n: int)
    requires FourDigits(c) && Valid(m) && 0 <= m.year <= 9999 && ToDay(m) == ToDay(c) + n
    ensures IsoShape(IsoDate(c)) && ShiftISO(IsoDate(c), n) == Some(IsoDate(m))
  {
    hide ToDay, FromDay, IsoDate, ShiftISO;
    ShiftMovesDay(c, n);
    FromDayOfToDay(m);
    FourDigitYearsAreInRange(m);
    FieldsOfIso(m);
  }

  /** Shifting by a and then by b is shifting by a + b, as long as the date m in between has a year of 100 to 9999. */
  lemma ShiftComposes(c: Civil, m: Civil, a: int, b: int)
    requires FourDigits(c) && FourDigits(m) && ToDay(m) == ToDay(c) + a
    ensures IsoShape(IsoDate(c)) && IsoShape(IsoDate(m)) && ShiftISO(IsoDate(c), a) == Some(IsoDate(m))
    ensures ShiftISO(IsoDate(m), b) == ShiftISO(IsoDate(c), a + b)
  {
    hide ToDay, FromDay, IsoDate, ShiftISO, Slice10, Fields;
    ShiftIsAddition(c, m, a);
    ShiftMovesDay(m, b);
    ShiftMovesDay(c, a + b);
    assert ToDay(m) + b == ToDay(c) + (a + b);
  }

  /** shiftISO takes the text of c, shifted by n, to the text of m. */
  predicate ShiftsTo(c: Civil, n: int, m: Civil)
    requires Valid(c) && Valid(m)
  {
    IsoShape(IsoDate(c)) && ShiftISO(IsoDate(c), n) == Some(IsoDate(m))
  }

  lemma ShiftBack(c: Civil, m: Civil, n: int)
    requires FourDigits(c) && FourDigits(m) && ShiftsTo(c, n, m)
    ensures ShiftsTo(m, -n, c)
  {
    hide ToDay, FromDay, IsoDate, ShiftISO, Slice10, Fields;
    ShiftMovesDay(c, n);
    var u := ToDay(c) + n;
    ToDayOfFromDay(u);
    PrintedDateIs(u, m);
    ShiftIsAddition(m, c, -n);
  }

  /** Shifting back undoes shifting, whichever of the two dates one starts from. */
  lemma ShiftBackIff(c: Civil, m: Civil, n: int)
    requires FourDigits(c) && FourDigits(m)
    ensures ShiftsTo(c, n, m) <==> ShiftsTo(m, -n, c)
  {
    hide ShiftsTo;
    if ShiftsTo(c, n, m) {
      ShiftBack(c, m, n);
    }
    if ShiftsTo(m, -n, c) {
      ShiftBack(m, c, -n);
      assert -(-n) == n;
    }
  }

  /** A day that prints as the four-digit date m is m. */
  lemma PrintedDateIs(u: int, m: Civil)
    requires FourDigits(m) && Slice10(u) == IsoDate(m)
    ensures ToDay(m) == u
  {
    hide ToDay, FromDay;
    ToDayOfFromDay(u);
    var d := FromDay(u);
    FieldsOfIso(m);
    assert IsDigit(IsoDate(m)[..4][0]);
    if 0 <= d.year <= 9999 {
      IsoOrderIsChronological(d, m);
      FieldsOfIso(d);
    } else {
      LongYearStartsWithSign(u);
    }
  }

  lemma LongYearStartsWithSign(u: int)
    requires !(0 <= FromDay(u).year <= 9999)
    ensures |Slice10(u)| == 10 && !IsDigit(Slice10(u)[0])
  {
    ToDayOfFromDay(u);
    var d := FromDay(u);
    PadDigits(if d.year > 0 then d.year else -d.year, 6);
    PadDigits(d.month, 2);
    PadDigits(d.day, 2);
  }

  /** Shifting by 0 gives the date back exactly when its year is not one of those Date.UTC remaps. */
  lemma ShiftByZeroIff(c: Civil)
    requires Valid(c) && 0 <= c.year <= 9999
    ensures IsoShape(IsoDate(c)) && (ShiftISO(IsoDate(c), 0) == Some(IsoDate(c)) <==> c.year >= 100)
  {
    FieldsOfIso(c);
    FromDayOfToDay(c);
    if c.year >= 100 {
      ShiftIsAddition(c, c, 0);
    } else {
      RemappedShift(c);
      var d := FromDay(MakeDay(1900 + c.year, c.month - 1, c.day));
      IsoOrderIsChronological(c, d);
    }
  }

  /** Shifting fails exactly when it leads more than 100,000,000 days from 1970. */
  lemma ShiftFailsIff(c: Civil, n: int)
    requires FourDigits(c)
    ensures IsoShape(IsoDate(c))
    ensures ShiftISO(IsoDate(c), n).None? <==> ToDay(c) + n < -100_000_000 || 100_000_000 < ToDay(c) + n
  {
    hide ToDay, FromDay, Slice10, IsoDate, ShiftISO;
    ShiftMovesDay(c, n);
  }

  /** Where the year leaves four digits the text does too: a sign and six digits, and the ten characters kept end with
      the month, so that the day is lost. */
  lemma ShiftToLongYear(c: Civil, m: Civil, n: int)
    requires FourDigits(c) && Valid(m) && !(0 <= m.year <= 9999) && -999_999 <= m.year <= 999_999
    requires ToDay(m) == ToDay(c) + n && -100_000_000 <= ToDay(m) <= 100_000_000
    ensures IsoShape(IsoDate(c))
    ensures ShiftISO(IsoDate(c), n)
            == Some((if m.year > 0 then "+" + Pad(m.year, 6) else "-" + Pad(-m.year, 6)) + "-" + Pad(m.month, 2))
  {
    hide ToDay, FromDay, IsoDate, ShiftISO, Slice10;
    ShiftMovesDay(c, n);
    FromDayOfToDay(m);
    LongSlice(ToDay(m), m);
  }

  lemma LongSlice(u: int, m: Civil)
    requires m == FromDay(u) && Valid(m) && !(0 <= m.year <= 9999)
    ensures Slice10(u) == (if m.year > 0 then "+" + Pad(m.year, 6) else "-" + Pad(-m.year, 6)) + "-" + Pad(m.month, 2)
  {
    hide FromDay;
    PadDigits(if m.year > 0 then m.year else -m.year, 6);
    PadDigits(m.month, 2);
    PadDigits(m.day, 2);
    hide Pad;
    var kept := (if m.year > 0 then "+" + Pad(m.year, 6) else "-" + Pad(-m.year, 6)) + "-" + Pad(m.month, 2);
    assert IsoDate(m) == kept + ("-" + Pad(m.day, 2));
    assert |kept| == 10;
  }

  lemma RemappedShift(c: Civil)
    requires Valid(c) && 0 <= c.year <= 99 && IsoShape(IsoDate(c)) && Fields(IsoDate(c)) == c
    ensures var d := FromDay(MakeDay(1900 + c.year, c.month - 1, c.day));
      Valid(d) && 1900 <= d.year <= 2000 && ShiftISO(IsoDate(c), 0) == Some(IsoDate(d))
  {
    hide ToDay, FromDay, MakeDay, IsoDate, ShiftISO;
    RemappedYears(c);
    var u := MakeDay(1900 + c.year, c.month - 1, c.day);
    ShiftFromDay(IsoDate(c), u, 0);
    FieldsOfIso(FromDay(u));
  }

  lemma RemappedYears(c: Civil)
    requires Valid(c) && 0 <= c.year <= 99
    ensures var u := MakeDay(1900 + c.year, c.month - 1, c.day);
      Clip(u) == Some(u) && Valid(FromDay(u)) && 1900 <= FromDay(u).year <= 2000
  {
    hide FromDay, MakeDay, DayFromYear;
    var u := MakeDay(1900 + c.year, c.month - 1, c.day);
    MakeDayWithinYear(1900 + c.year, c.month, c.day);
    TwentiethCentury(1900 + c.year, u);
    YearBetween(u, 1900, 2001);
  }

  /** A day of a month, be it the 29th of February of a common year, leads no further than the end of the year. */
  lemma MakeDayWithinYear(y: int, m: int, d: int)
    requires 1 <= m <= 12 && 1 <= d <= 31 && (m == 2 ==> d <= 29)
    ensures DayFromYear(y) <= MakeDay(y, m - 1, d) < DayFromYear(y + 1)
  {
    MakeDayIs(y, m, d);
    MonthsAreOrdered(y, 1, m);
    MonthsAreOrdered(y, m, 12);
    hide MakeDay, DayFromYear;
    NextYearStarts(y);
    TwelveMonthsFillTheYear(y);
  }

  lemma MakeDayIs(y: int, m: int, d: int)
    requires 1 <= m <= 12
    ensures MakeDay(y, m - 1, d) == DayFromYear(y) + DaysBefore(y, m) + d - 1
  {
  }

  lemma TwentiethCentury(y: int, u: int)
    requires 1900 <= y <= 1999 && DayFromYear(y) <= u < DayFromYear(y + 1)
    ensures DayFromYear(1900) <= u < DayFromYear(2001) && Clip(u) == Some(u)
  {
    YearsAreOrdered(1900, y);
    YearsAreOrdered(y + 1, 2001);
  }

  /** A day between the starts of years a and b has its year between them. */
  lemma YearBetween(u: int, a: int, b: int)
    requires DayFromYear(a) <= u < DayFromYear(b)
    ensures Valid(FromDay(u)) && a <= FromDay(u).year < b
  {
    ToDayOfFromDay(u);
    DayOfYearFits(FromDay(u));
    var z := FromDay(u).year;
    if z < a {
      YearsAreOrdered(z + 1, a);
    } else if b <= z {
      YearsAreOrdered(b, z);
    }
  }

  /** Shifting by n days forward is n steps of the calendar. */
  lemma ShiftIsCalendarWalk(c: Civil, n: nat)
    requires FourDigits(c) && After(c, n).year <= 9999
    ensures IsoShape(IsoDate(c)) && Valid(After(c, n)) && ShiftISO(IsoDate(c), n) == Some(IsoDate(After(c, n)))
  {
    hide ToDay, FromDay, IsoDate, ShiftISO, Slice10, Fields;
    AfterIsAddition(c, n);
    ToDayOrder(c, After(c, n));
    ShiftIsAddition(c, After(c, n), n);
  }

  // ---- presetRange ----

  /** The cases of the switch; Other stands for 'today' and every other key. */
  datatype Key = Yesterday | ThisWeek | ThisMonth | ThisYear | All | Other

  datatype Range = Range(from: string, to: string)

  function MondayOffset(n: int): int { (WeekDay(n) + 6) % 7 }

  /** From `days` days before t to t. */
  function RangeBack(t: string, days: int): Option<Range>
    requires IsoShape(t)
  {
    match ShiftISO(t, -days) case None => None case Some(m) => Some(Range(m, t))
  }

  /** `t` is today's date in New York; None would be an exception thrown by shiftISO. */
  function PresetRange(t: string, key: Key): Option<Range>
    requires IsoShape(t)
  {
    var p := Fields(t);
    match key
    case Yesterday => (match ShiftISO(t, -1) case None => None case Some(y) => Some(Range(y, y)))
    case ThisWeek => RangeBack(t, MondayOffset(UtcDay(p)))
    case ThisMonth => Some(Range(Number(p.year) + "-" + Pad(p.month, 2) + "-01", t))
    case ThisYear => Some(Range(Number(p.year) + "-01-01", t))
    case All => Some(Range("2000-01-01", t))
    case Other => Some(Range(t, t))
  }

  /** The same windows as civil dates. */
  datatype Window = Window(from: Civil, to: Civil)

  function PresetWindow(c: Civil, key: Key): Window {
    match key
    case Yesterday => Window(FromDay(ToDay(c) - 1), FromDay(ToDay(c) - 1))
    case ThisWeek => Window(FromDay(ToDay(c) - MondayOffset(ToDay(c))), c)
    case ThisMonth => Window(c.(day := 1), c)
    case ThisYear => Window(Civil(c.year, 1, 1), c)
    case All => Window(Civil(2000, 1, 1), c)
    case Other => Window(c, c)
  }

  /** presetRange prints the year without padding: the month and the year start as an ISO date exactly from
      year 1000 on. */
  lemma StartHasIsoShapeIff(c: Civil, key: Key)
    requires Valid(c) && 0 <= c.year <= 9999 && key in {ThisMonth, ThisYear}
    ensures IsoShape(IsoDate(c)) && PresetRange(IsoDate(c), key).Some?
    ensures IsoShape(PresetRange(IsoDate(c), key).value.from) <==> c.year >= 1000
  {
    FieldsOfIso(c);
    if c.year >= 1000 {
      FirstDaysAsText(c);
      FieldsOfIso(PresetWindow(c, key).from);
    } else {
      Powers();
      NumberIsShort(c.year, 3);
      PadDigits(c.month, 2);
    }
  }

  /** A date whose year prints as four digits without padding. */
  predicate Today(c: Civil) { Valid(c) && 1000 <= c.year <= 9999 }

  lemma RecentDays(c: Civil, n: nat)
    requires Today(c) && n <= 7
    ensures FourDigits(FromDay(ToDay(c) - n)) && ToDay(FromDay(ToDay(c) - n)) == ToDay(c) - n
  {
    ToDayOfFromDay(ToDay(c) - n);
    DayOfYearFits(c);
    MonthsAreOrdered(c.year, 1, c.month);
    YearsAreOrdered(1000, c.year);
    YearsAreOrdered(999, 1000);
    YearsAreOrdered(c.year + 1, 10000);
    YearBetween(ToDay(c) - n, 999, 10000);
  }

  lemma FirstDaysAsText(c: Civil)
    requires Today(c)
    ensures Number(c.year) + "-" + Pad(c.month, 2) + "-01" == IsoDate(c.(day := 1))
    ensures Number(c.year) + "-01-01" == IsoDate(Civil(c.year, 1, 1))
  {
    Powers();
    NumberIsPad(c.year, 4);
    assert Pad(1, 2) == "01";
    hide Pad, Number;
    FirstOf(Pad(c.year, 4) + "-" + Pad(c.month, 2));
    FirstOf(Pad(c.year, 4));
  }

  lemma FirstOf(s: string)
    ensures s + "-01" == s + "-" + "01" && s + "-01-01" == s + "-" + "01" + "-" + "01"
  {
  }

  lemma AllAsText()
    ensures "2000-01-01" == IsoDate(Civil(2000, 1, 1))
  {
    assert Pad(1, 2) == "01" && Pad(2000, 4) == "2000";
    assert "2000-01-01" == "2000" + "-" + "01" + "-" + "01";
  }

  lemma ShiftPrints(c: Civil, m: Civil, n: int)
    requires Today(c) && 0 <= n <= 7 && m == FromDay(ToDay(c) - n)
    ensures FourDigits(m) && IsoShape(IsoDate(c)) && ShiftISO(IsoDate(c), -n) == Some(IsoDate(m))
  {
    hide ToDay, FromDay, IsoDate, ShiftISO, Fields;
    RecentDays(c, n);
    ShiftIsAddition(c, m, -n);
  }

  lemma UtcDayIsDayNumber(c: Civil)
    requires FourDigits(c)
    ensures UtcDay(c) == ToDay(c)
  {
    MakeDayIsDayNumber(c);
  }

  lemma RangeBackPrints(c: Civil, m: Civil, n: int)
    requires Today(c) && 0 <= n <= 7 && m == FromDay(ToDay(c) - n)
    ensures FourDigits(m) && IsoShape(IsoDate(c))
    ensures RangeBack(IsoDate(c), n) == Some(Range(IsoDate(m), IsoDate(c)))
  {
    hide ToDay, FromDay, IsoDate, ShiftISO, Fields;
    ShiftPrints(c, m, n);
  }

  lemma UtcDayOfIso(c: Civil)
    requires FourDigits(c)
    ensures IsoShape(IsoDate(c)) && UtcDay(Fields(IsoDate(c))) == ToDay(c)
  {
    FieldsOfIso(c);
    UtcDayIsDayNumber(c);
  }

  lemma WeekPrints(c: Civil, m: Civil, off: int)
    requires Today(c) && off == MondayOffset(ToDay(c)) && m == FromDay(ToDay(c) - off)
    ensures FourDigits(m) && IsoShape(IsoDate(c))
    ensures PresetRange(IsoDate(c), ThisWeek) == Some(Range(IsoDate(m), IsoDate(c)))
  {
    hide ToDay, FromDay, IsoDate, ShiftISO, Fields;
    UtcDayOfIso(c);
    MondayOffsetFacts(ToDay(c));
    RangeBackPrints(c, m, off);
  }

  lemma ConstantStartPrints(c: Civil, key: Key)
    requires Today(c) && !key.Yesterday? && !key.ThisWeek?
    ensures var w := PresetWindow(c, key);
      && FourDigits(w.from) && w.to == c && IsoShape(IsoDate(c))
      && PresetRange(IsoDate(c), key) == Some(Range(IsoDate(w.from), IsoDate(c)))
  {
    FieldsOfIso(c);
    FirstDaysAsText(c);
    AllAsText();
  }

  /** Every preset prints exactly the first and the last day of its window. */
  lemma PresetRangePrintsWindow(c: Civil, key: Key)
    requires Today(c)
    ensures var w := PresetWindow(c, key);
      && FourDigits(w.from) && FourDigits(w.to) && IsoShape(IsoDate(c))
      && PresetRange(IsoDate(c), key) == Some(Range(IsoDate(w.from), IsoDate(w.to)))
  {
    hide ToDay, FromDay, IsoDate, ShiftISO, Fields, PresetRange, PresetWindow;
    PresetPrints(c, key, PresetWindow(c, key));
  }

  lemma PresetPrints(c: Civil, key: Key, w: Window)
    requires Today(c) && w == PresetWindow(c, key)
    ensures FourDigits(w.from) && FourDigits(w.to) && IsoShape(IsoDate(c))
    ensures PresetRange(IsoDate(c), key) == Some(Range(IsoDate(w.from), IsoDate(w.to)))
  {
    hide ToDay, FromDay, IsoDate, ShiftISO, Fields;
    if key.Yesterday? {
      ShiftPrints(c, w.from, 1);
    } else if key.ThisWeek? {
      WeekPrints(c, w.from, MondayOffset(ToDay(c)));
    } else {
      ConstantStartPrints(c, key);
    }
  }

  lemma MondayOffsetFacts(n: int)
    ensures 0 <= MondayOffset(n) <= 6 && WeekDay(n - MondayOffset(n)) == 1
  {
  }

  lemma YesterdayIsTheDayBefore(c: Civil)
    requires Today(c)
    ensures var w := PresetWindow(c, Yesterday); w.from == w.to && Valid(w.from) && Tomorrow(w.from) == c
  {
    RecentDays(c, 1);
    var y := FromDay(ToDay(c) - 1);
    TomorrowIsNextDay(y);
    ToDayOrder(Tomorrow(y), c);
  }

  lemma WeekStartsOnMonday(c: Civil)
    requires Today(c)
    ensures var w := PresetWindow(c, ThisWeek);
      w.to == c && WeekDay(ToDay(w.from)) == 1 && 0 <= ToDay(c) - ToDay(w.from) <= 6
  {
    MondayOffsetFacts(ToDay(c));
    ToDayOfFromDay(ToDay(c) - MondayOffset(ToDay(c)));
  }

  /** Two days have the same week start exactly when no Monday separates them. */
  lemma WeekStartsAgreeIff(c: Civil, d: Civil)
    requires Today(c) && Today(d)
    ensures PresetWindow(c, ThisWeek).from == PresetWindow(d, ThisWeek).from
            <==> (ToDay(c) + 3) / 7 == (ToDay(d) + 3) / 7
  {
    SameMonday(ToDay(c), ToDay(d));
    FromDayIsInjective(ToDay(c) - MondayOffset(ToDay(c)), ToDay(d) - MondayOffset(ToDay(d)));
  }

  lemma FromDayIsInjective(m: int, n: int)
    ensures FromDay(m) == FromDay(n) <==> m == n
  {
    ToDayOfFromDay(m);
    ToDayOfFromDay(n);
  }

  lemma SameMonday(m: int, n: int)
    ensures m - MondayOffset(m) == n - MondayOffset(n) <==> (m + 3) / 7 == (n + 3) / 7
  {
    assert m - MondayOffset(m) == 7 * ((m + 3) / 7) - 3;
    assert n - MondayOffset(n) == 7 * ((n + 3) / 7) - 3;
  }

  predicate Within(r: Window, q: Window) {
    ToDay(q.from) <= ToDay(r.from) && ToDay(r.to) <= ToDay(q.to)
  }

  /** today is in the week and in the month, the month in the year; the year is in `all` exactly from 2000 on,
      the week exactly from Monday 2000-01-03 on, and the week is in the month exactly when the month
      did not begin after its Monday. */
  lemma WindowsNest(c: Civil)
    requires Today(c)
    ensures Within(PresetWindow(c, Other), PresetWindow(c, ThisWeek))
    ensures Within(PresetWindow(c, Other), PresetWindow(c, ThisMonth))
    ensures Within(PresetWindow(c, ThisMonth), PresetWindow(c, ThisYear))
    ensures Within(PresetWindow(c, ThisYear), PresetWindow(c, All)) <==> c.year >= 2000
    ensures Within(PresetWindow(c, ThisWeek), PresetWindow(c, All)) <==> ToDay(c) >= ToDay(Civil(2000, 1, 3))
    ensures Within(PresetWindow(c, ThisWeek), PresetWindow(c, ThisMonth)) <==> MondayOffset(ToDay(c)) < c.day
  {
    RecentDays(c, MondayOffset(ToDay(c)));
    ToDayOrder(Civil(c.year, 1, 1), c.(day := 1));
    ToDayOrder(Civil(c.year, 1, 1), Civil(2000, 1, 1));
    Millennium(ToDay(c));
  }

  lemma Millennium(n: int)
    ensures ToDay(Civil(2000, 1, 1)) == 10957
    ensures n - MondayOffset(n) >= 10957 <==> n >= 10959
  {
  }
}

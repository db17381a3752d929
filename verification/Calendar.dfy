/** Dates and seconds (kernel/include/rtc.h, userspace/libc/time.c). */
module Calendar {
  import opened Ints

  /** Months are counted from 1 and years are full years, as mktime takes them. */
  datatype Date = Date(year: int, month: int, day: int, hour: int, minute: int, second: int)

  predicate Leap(y: int) { y % 4 == 0 && (y % 100 != 0 || y % 400 == 0) }

  function YearLength(y: int): int { if Leap(y) then 366 else 365 }

  const MONTHS: seq<int> := [31, 28, 31, 30, 31, 30, 31, 31, 30, 31, 30, 31]

  /** The length of month m, counted from 0. */
  function MonthLength(y: int, m: int): (r: int)
    requires 0 <= m < 12
    ensures 28 <= r <= 31
  {
    MONTHS[m] + if m == 1 && Leap(y) then 1 else 0
  }

  predicate Valid(d: Date) {
    && 1970 <= d.year && 1 <= d.month <= 12 && 1 <= d.day <= MonthLength(d.year, d.month - 1)
    && 0 <= d.hour < 24 && 0 <= d.minute < 60 && 0 <= d.second < 60
  }

  // ---- the reference: days counted one year and one month at a time ----

  function DaysBefore(y: int): (r: int)
    requires 1970 <= y
    ensures r >= 0
  {
    if y == 1970 then 0 else DaysBefore(y - 1) + YearLength(y - 1)
  }

  /** Days of year y before month m, counted from 0; for m == 12 the whole year. */
  function DaysBeforeMonth(y: int, m: int): (r: int)
    requires 0 <= m <= 12
    ensures r >= 0
  {
    if m == 0 then 0 else DaysBeforeMonth(y, m - 1) + MonthLength(y, m - 1)
  }

  function DayNumber(y: int, m: int, d: int): int
    requires 1970 <= y && 1 <= m <= 12
  {
    DaysBefore(y) + DaysBeforeMonth(y, m - 1) + d - 1
  }

  /** Seconds since the Epoch by definition. */
  function Seconds(d: Date): int
    requires Valid(d)
  {
    ((DayNumber(d.year, d.month, d.day) * 24 + d.hour) * 60 + d.minute) * 60 + d.second
  }

  // ---- leap years in closed form ----

  function Leaps(y: int): int { y / 4 - y / 100 + y / 400 }

  lemma LeapStep(y: int)
    requires y > 0
    ensures Leaps(y) == Leaps(y - 1) + if Leap(y) then 1 else 0
  {
    assert y / 4 == (y - 1) / 4 + if y % 4 == 0 then 1 else 0;
    assert y / 100 == (y - 1) / 100 + if y % 100 == 0 then 1 else 0;
    assert y / 400 == (y - 1) / 400 + if y % 400 == 0 then 1 else 0;
  }

  lemma {:induction false} DaysBeforeIs(y: int)
    requires 1970 <= y
    ensures DaysBefore(y) == 365 * (y - 1970) + Leaps(y - 1) - 477
  {
    if y > 1970 {
      DaysBeforeIs(y - 1);
      LeapStep(y - 1);
    }
  }

  lemma MonthsTable(y: int)
    ensures var l := if Leap(y) then 1 else 0;
      && DaysBeforeMonth(y, 0) == 0 && DaysBeforeMonth(y, 1) == 31 && DaysBeforeMonth(y, 2) == 59 + l
      && DaysBeforeMonth(y, 3) == 90 + l
      && DaysBeforeMonth(y, 4) == 120 + l && DaysBeforeMonth(y, 5) == 151 + l && DaysBeforeMonth(y, 6) == 181 + l
      && DaysBeforeMonth(y, 7) == 212 + l && DaysBeforeMonth(y, 8) == 243 + l && DaysBeforeMonth(y, 9) == 273 + l
      && DaysBeforeMonth(y, 10) == 304 + l && DaysBeforeMonth(y, 11) == 334 + l
      && DaysBeforeMonth(y, 12) == YearLength(y)
  {
  }

  /** mktime's closed formula for the day, on the shifted month and year. */
  function DayFormula(year: int, mon: int, mday: int): int {
    year / 4 - year / 100 + year / 400 + 367 * mon / 12 + mday + year * 365 - 719499
  }

  /** The formula counts days correctly for every month of every year from 1970 on. */
  lemma FormulaCountsDays(y: int, m: int, d: int)
    requires 1970 <= y && 1 <= m <= 12
    ensures (if m > 2 then DayFormula(y, m - 2, d) else DayFormula(y - 1, m + 10, d)) == DayNumber(y, m, d)
  {
    DaysBeforeIs(y);
    LeapStep(y);
    MonthsTable(y);
  }

  /** struct tm */
  class Tm {
    var sec: int
    var min: int
    var hour: int
    var mday: int
    var mon: int
    var year: int
    var wday: int
    var yday: int

    constructor (d: Date)
      ensures sec == d.second && min == d.minute && hour == d.hour && mday == d.day && mon == d.month && year == d.year
    {
      sec, min, hour, mday, mon, year := d.second, d.minute, d.hour, d.day, d.month, d.year;
    }

    function When(): Date
      reads this
    {
      Date(year, mon, mday, hour, min, sec)
    }

    /** mktime: the seconds since the Epoch of a date with months from 1; month and year are left shifted. */
    method Mktime() returns (t: int)
      requires Valid(When())
      modifies this`mon, this`year
      ensures t == Seconds(old(When()))
      ensures mon == (if old(mon) > 2 then old(mon) - 2 else old(mon) + 10) &&
        year == (if old(mon) > 2 then old(year) else old(year) - 1)
    {
      FormulaCountsDays(year, mon, mday);
      mon := mon - 2;
      if 0 >= mon {
        mon := mon + 12;
        year := year - 1;
      }
      t := ((DayFormula(year, mon, mday) * 24 + hour) * 60 + min) * 60 + sec;
    }

    /** calcDate of a 32-bit clock: the one date with months from 0 that the seconds stand for, its weekday and its day
        in the year. */
    method CalcDate(time: int)
      requires 0 <= time < UINT
      modifies this
      ensures Valid(When().(month := mon + 1)) && Seconds(When().(month := mon + 1)) == time
      ensures wday == (4 + time / 86400) % 7
      ensures yday == DaysBeforeMonth(year, mon) + mday - 1
    {
      hide DaysBeforeMonth, YearLength, Leap, DaysBefore, MonthLength;
      var seconds := time;
      var minutes := seconds / 60;
      seconds := seconds - minutes * 60;
      var hours := minutes / 60;
      minutes := minutes - hours * 60;
      var days := hours / 24;
      hours := hours - days * 24;
      TimeOfDay(time);
      var y, left, dow := FindYear(days);
      var month, day := FindMonth(y, left);
      sec, min, hour, mday, mon, year, wday, yday := seconds, minutes, hours, day + 1, month, y, dow, left;
    }
  }

  lemma TimeOfDay(time: int)
    requires 0 <= time
    ensures var m := time / 60; var h := m / 60; var d := h / 24;
      d == time / 86400 && ((d * 24 + (h - d * 24)) * 60 + (m - h * 60)) * 60 + (time - m * 60) == time
  {
  }

  /** The year loop of calcDate: the year a day falls in, the days left, and the weekday. */
  method FindYear(day: int) returns (y: int, days: int, dow: int)
    requires 0 <= day
    ensures 1970 <= y && 0 <= days < YearLength(y) && day == DaysBefore(y) + days && dow == (4 + day) % 7
  {
    y, days, dow := 1970, day, 4;
    while days >= YearLength(y)
      invariant 1970 <= y && 0 <= days && day == DaysBefore(y) + days
      invariant 0 <= dow < 7 && (dow + days) % 7 == (4 + day) % 7
      decreases days
    {
      dow := dow + if Leap(y) then 2 else 1;
      days := days - YearLength(y);
      if dow >= 7 {
        dow := dow - 7;
      }
      y := y + 1;
    }
    dow := (dow + days) % 7;
  }

  /** The month loop of calcDate: the month, from 0, and the days into it. */
  method FindMonth(y: int, yday: int) returns (month: int, days: int)
    requires 0 <= yday < YearLength(y)
    ensures 0 <= month < 12 && 0 <= days < MonthLength(y, month) && yday == DaysBeforeMonth(y, month) + days
  {
    hide MonthLength;
    month, days := 0, yday;
    while month < 12
      invariant 0 <= month <= 12 && 0 <= days && yday == DaysBeforeMonth(y, month) + days
    {
      if days < MonthLength(y, month) {
        return;
      }
      days := days - MonthLength(y, month);
      month := month + 1;
    }
    WholeYear(y);
    assert false;
  }

  lemma WholeYear(y: int)
    ensures DaysBeforeMonth(y, 12) == YearLength(y)
  {
    MonthsTable(y);
  }

  // ---- round trips ----

  lemma {:induction false} DaysBeforeMonthGrows(y: int, m: int, n: int)
    requires 0 <= m < n <= 12
    ensures DaysBeforeMonth(y, m) + MonthLength(y, m) <= DaysBeforeMonth(y, n)
    decreases n
  {
    if m < n - 1 {
      DaysBeforeMonthGrows(y, m, n - 1);
    }
  }

  lemma {:induction false} DaysBeforeGrows(y: int, z: int)
    requires 1970 <= y < z
    ensures DaysBefore(y) + YearLength(y) <= DaysBefore(z)
    decreases z
  {
    if y < z - 1 {
      DaysBeforeGrows(y, z - 1);
    }
  }

  lemma WithinYear(d: Date)
    requires Valid(d)
    ensures 0 <= DaysBeforeMonth(d.year, d.month - 1) + d.day - 1 < YearLength(d.year)
  {
    MonthsTable(d.year);
  }

  /** Dates are told apart by their day number. */
  lemma DayNumberInjective(d: Date, e: Date)
    requires Valid(d) && Valid(e) && DayNumber(d.year, d.month, d.day) == DayNumber(e.year, e.month, e.day)
    ensures d.year == e.year && d.month == e.month && d.day == e.day
  {
    hide Leap, MonthLength, YearLength, DaysBefore, DaysBeforeMonth;
    WithinYear(d);
    WithinYear(e);
    if d.year < e.year {
      DaysBeforeGrows(d.year, e.year);
    } else if e.year < d.year {
      DaysBeforeGrows(e.year, d.year);
    } else if d.month < e.month {
      DaysBeforeMonthGrows(d.year, d.month - 1, e.month - 1);
    } else if e.month < d.month {
      DaysBeforeMonthGrows(d.year, e.month - 1, d.month - 1);
    }
  }

  lemma SecondsInjective(d: Date, e: Date)
    requires Valid(d) && Valid(e) && Seconds(d) == Seconds(e)
    ensures d == e
  {
    hide DayNumber;
    DayNumberInjective(d, e);
  }

  /** Not after 2106-02-07 06:28:15. */
  predicate Upto2106(d: Date) {
    || d.year < 2106
    || (d.year == 2106 && (d.month == 1 || (d.month == 2 && (d.day < 7 || (d.day == 7 && UptoLastSecond(d))))))
  }

  predicate UptoLastSecond(d: Date) {
    d.hour < 6 || (d.hour == 6 && (d.minute < 28 || (d.minute == 28 && d.second <= 15)))
  }

  /** The dates the 32-bit clock can show. */
  lemma ClockRange(d: Date)
    requires Valid(d)
    ensures Seconds(d) < UINT <==> Upto2106(d)
  {
    hide Leap, MonthLength, YearLength, DaysBefore, DaysBeforeMonth;
    DaysBefore2106();
    WithinYear(d);
    if d.year < 2106 {
      DaysBeforeGrows(d.year, 2106);
    } else if d.year > 2106 {
      DaysBeforeGrows(2106, d.year);
    } else {
      MonthStart2106(d);
    }
  }

  lemma DaysBefore2106()
    ensures DaysBefore(2106) == 49673 && YearLength(2106) == 365
  {
    DaysBeforeIs(2106);
  }

  lemma MonthStart2106(d: Date)
    requires Valid(d) && d.year == 2106
    ensures DaysBeforeMonth(2106, 0) == 0 && DaysBeforeMonth(2106, 1) == 31 && d.day <= 31
    ensures d.month > 2 ==> DaysBeforeMonth(2106, d.month - 1) >= 59
  {
    MonthsTable(2106);
  }

  /** Calendar round trip: calcDate undoes mktime, exactly for the dates up to 2106-02-07 06:28:15. */
  method DateRoundTrip(d: Date) returns (tm: Tm)
    requires Valid(d)
    ensures tm.When().(month := tm.mon + 1) == d <==> Upto2106(d)
  {
    hide Seconds, Valid, Upto2106;
    tm := new Tm(d);
    var t := tm.Mktime();
    SecondsPositive(d);
    tm.CalcDate(t % UINT);
    ClockRange(d);
    if Seconds(d) < UINT {
      SecondsInjective(tm.When().(month := tm.mon + 1), d);
    }
  }

  lemma Epoch()
    ensures var d := Date(1970, 1, 1, 0, 0, 0); Valid(d) && Seconds(d) == 0
  {
  }

  lemma EndOfClock()
    ensures var d := Date(2106, 2, 7, 6, 28, 16); Valid(d) && Seconds(d) == UINT
  {
    hide DaysBefore, MonthLength, YearLength;
    DaysBefore2106();
    assert DaysBeforeMonth(2106, 1) == 31 by { FirstMonth(2106); }
  }

  lemma FirstMonth(y: int)
    ensures DaysBeforeMonth(y, 1) == 31
  {
  }

  /** One second later the clock starts again at the Epoch. */
  method ClockRunsOut() returns (tm: Tm)
    ensures tm.When().(month := tm.mon + 1) == Date(1970, 1, 1, 0, 0, 0)
  {
    hide Seconds, Valid;
    Epoch();
    EndOfClock();
    tm := new Tm(Date(2106, 2, 7, 6, 28, 16));
    var t := tm.Mktime();
    tm.CalcDate(t % UINT);
    SecondsInjective(tm.When().(month := tm.mon + 1), Date(1970, 1, 1, 0, 0, 0));
  }

  // ---- the dates the kernel asks for: two decimal digits of year, read from the clock ----

  function Bcd2dec(b: Byte): nat { b / 16 * 10 + b % 16 }

  predicate IsBcd(b: Byte) { b / 16 < 10 && b % 16 < 10 }

  /** get_date_time's date, from the clock's registers. */
  function ClockDate(year: Byte, month: Byte, dom: Byte, hour: Byte, minute: Byte, second: Byte): Date {
    Date(Bcd2dec(year) + 2000, Bcd2dec(month), Bcd2dec(dom), Bcd2dec(hour), Bcd2dec(minute), Bcd2dec(second))
  }

  /** Every date a clock with decimal digits supplies survives mktime and calcDate. */
  method ClockRoundTrip(year: Byte, month: Byte, dom: Byte, hour: Byte, minute: Byte, second: Byte) returns (tm: Tm)
    requires IsBcd(year) && Valid(ClockDate(year, month, dom, hour, minute, second))
    ensures tm.When().(month := tm.mon + 1) == ClockDate(year, month, dom, hour, minute, second)
  {
    tm := DateRoundTrip(ClockDate(year, month, dom, hour, minute, second));
  }

  lemma SecondsPositive(d: Date)
    requires Valid(d)
    ensures Seconds(d) >= 0
  {
  }

  /** mktime undoes calcDate. */
  method TimeRoundTrip(t: int) returns (u: int)
    requires 0 <= t < UINT
    ensures u == t
  {
    var tm := new Tm(Date(1970, 1, 1, 0, 0, 0));
    tm.CalcDate(t);
    tm.mon := tm.mon + 1;
    u := tm.Mktime();
  }
}

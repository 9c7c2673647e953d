/** Calendar arithmetic of kern/rtc.c, against the Gregorian calendar counted day by day from 1970 on.

Years are counted from 1900 and months from 0 as in struct rtc_time; tm_yday is counted from 1 there.
*/
module Rtc {

  datatype Tm = Tm(sec: int, min: int, hour: int, mday: int, mon: int, year: int, wday: int, yday: int)

  // ---------------------------------------------------------------- the calendar

  predicate IsLeap(y: int) {
    y % 4 == 0 && (y % 100 != 0 || y % 400 == 0)
  }

  function YearDays(y: int): (n: nat) {
    if IsLeap(y) then 366 else 365
  }

  /** rtc_month_days */
  function MonthDays(m: nat, y: int): (n: nat)
    requires m < 12
    ensures 28 <= n <= 31
  {
    match m
    case 1 => if IsLeap(y) then 29 else 28
    case 3 => 30
    case 5 => 30
    case 8 => 30
    case 10 => 30
    case _ => 31
  }

  /** Days from the beginning of 1970 to the beginning of year y, counted back for earlier years. */
  function DaysToYear(y: nat): (n: int)
    decreases if y > 1970 then y - 1970 else 1970 - y
  {
    if y == 1970 then 0
    else if y > 1970 then DaysToYear(y - 1) + YearDays(y - 1)
    else DaysToYear(y + 1) - YearDays(y)
  }

  /** Days from the beginning of year y to the beginning of month m. */
  function DaysToMonth(m: nat, y: int): (n: nat)
    requires m <= 12
  {
    if m == 0 then 0 else DaysToMonth(m - 1, y) + MonthDays(m - 1, y)
  }

  /** rtc_valid_tm */
  predicate ValidTm(t: Tm) {
    && t.year <= 199 && 0 <= t.mon < 12
    && 1 <= t.mday <= MonthDays(t.mon, t.year + 1900)
    && 0 <= t.hour < 24 && 0 <= t.min < 60 && 0 <= t.sec < 60
  }

  /** Seconds since the Epoch, counted. */
  function Seconds(t: Tm): (s: int)
    requires -1900 <= t.year && 0 <= t.mon < 12
  {
    (DaysToYear(t.year + 1900) + DaysToMonth(t.mon, t.year + 1900) + t.mday - 1) * 86400
    + t.hour * 3600 + t.min * 60 + t.sec
  }

  // ---------------------------------------------------------------- closed forms

  /** LEAPS_THRU_END_OF */
  function Leaps(y: nat): (n: int) {
    y / 4 - y / 100 + y / 400
  }

  lemma LeapsStep(y: nat)
    requires y > 0
    ensures Leaps(y) == Leaps(y - 1) + if IsLeap(y) then 1 else 0
  {
    Quotient(y, 4);
    Quotient(y, 100);
    Quotient(y, 400);
    Centuries(y);
  }

  lemma Centuries(y: nat)
    ensures (y % 400 == 0 ==> y % 100 == 0) && (y % 100 == 0 ==> y % 4 == 0)
  {
    assert y % 400 == 0 ==> y == 100 * (4 * (y / 400));
    assert y % 100 == 0 ==> y == 4 * (25 * (y / 100));
  }

  lemma Quotient(y: nat, d: nat)
    requires y > 0 && (d == 4 || d == 100 || d == 400)
    ensures d == 4 ==> y / 4 == (y - 1) / 4 + if y % 4 == 0 then 1 else 0
    ensures d == 100 ==> y / 100 == (y - 1) / 100 + if y % 100 == 0 then 1 else 0
    ensures d == 400 ==> y / 400 == (y - 1) / 400 + if y % 400 == 0 then 1 else 0
  {
  }

  lemma {:induction false} YearsClosed(y: nat)
    requires y >= 1
    ensures DaysToYear(y) == 365 * (y - 1970) + Leaps(y - 1) - 477
    decreases if y > 1970 then y - 1970 else 1970 - y
  {
    if y > 1970 {
      YearsClosed(y - 1);
      LeapsStep(y - 1);
      hide Leaps, IsLeap;
    } else if y < 1970 {
      YearsClosed(y + 1);
      LeapsStep(y);
      hide Leaps, IsLeap;
    }
  }

  /** Days to a month of a common year, and the leap day. */
  function MonthTable(m: nat): (n: nat)
    requires m <= 12
  {
    match m
    case 0 => 0 case 1 => 31 case 2 => 59 case 3 => 90 case 4 => 120 case 5 => 151 case 6 => 181
    case 7 => 212 case 8 => 243 case 9 => 273 case 10 => 304 case 11 => 334 case _ => 365
  }

  lemma {:induction false} MonthsClosed(m: nat, y: int)
    requires m <= 12
    ensures DaysToMonth(m, y) == MonthTable(m) + if m >= 2 && IsLeap(y) then 1 else 0
  {
    if m > 0 {
      MonthsClosed(m - 1, y);
    }
  }

  // ---------------------------------------------------------------- the program

  /** unsigned int */
  const WRAP := 0x1_0000_0000

  function Unsigned(x: int): (u: nat)
    ensures 0 <= x < WRAP ==> u == x
  {
    x % WRAP
  }

  /** The last year whose days, at 365 each, fit an unsigned int. */
  const LAST_YEAR := 11767033

  /** rtc_tm_to_time; arithmetic on unsigned int wraps, time_t has 64 bits.  year0 is the bit pattern of tm_year,
      which is negative before 1900. */
  method TmToTime(year0: nat, mon0: nat, day: nat, hour: nat, min: nat, sec: nat) returns (t: int)
    requires mon0 < 12 && year0 < WRAP && Unsigned(year0 + 1900) > 0 && day < 0x8000_0000
    ensures var y := Unsigned(year0 + 1900);
      t == Seconds(Tm(sec, min, hour, day, mon0, y - 1900, 0, 0)) <==> (if mon0 < 2 then y - 1 else y) <= LAST_YEAR
  {
    hide DaysToYear, DaysToMonth, Leaps;
    ghost var y := Unsigned(year0 + 1900);
    MonthBack(mon0);
    Shifted(y, mon0);
    WrapLess(y);
    WrapLess(mon0 + 1);
    hide Unsigned;
    var mon: int, year: int := Unsigned(mon0 + 1), Unsigned(year0 + 1900);
    mon := Unsigned(mon - 2);
    if mon == 0 || mon >= 0x8000_0000 {
      mon := Unsigned(mon + 12);
      year := Unsigned(year - 1);
    }
    LeapsSmall(year);
    DaysWrap(year);
    var d := Unsigned(Leaps(year) + 367 * mon / 12 + day) + Unsigned(year * 365) - 719499;
    return ((d * 24 + hour) * 60 + min) * 60 + sec;
  }

  lemma WrapLess(x: nat)
    requires 0 < x < WRAP
    ensures Unsigned(x) == x && Unsigned(x - 1) == x - 1
  {
  }

  lemma DaysWrap(y: nat)
    ensures Unsigned(y * 365) == y * 365 <==> y <= LAST_YEAR
  {
  }

  /** The sign test on the month: January and February belong to the year before. */
  lemma MonthBack(m: nat)
    requires m < 12
    ensures var x := Unsigned(m + 1 - 2);
      && (x == 0 || x >= 0x8000_0000 <==> m < 2)
      && (m < 2 ==> Unsigned(x + 12) == m + 11) && (m >= 2 ==> x == m - 1)
  {
  }

  lemma LeapsSmall(y: nat)
    requires y < WRAP
    ensures 0 <= Leaps(y) < 0x4800_0000
  {
  }

  /** The days of the months before m in a year that begins in March. */
  lemma MarchMonths(m: nat)
    requires m < 12
    ensures m < 2 ==> 367 * (m + 11) / 12 == MonthTable(m) + 336
    ensures m >= 2 ==> 367 * (m - 1) / 12 == MonthTable(m) - 29
  {
  }

  /** The year that begins in March. */
  lemma Shifted(y: nat, m: nat)
    requires m < 12 && y >= 1
    ensures var y', m' := if m < 2 then y - 1 else y, if m < 2 then m + 11 else m - 1;
      DaysToYear(y) + DaysToMonth(m, y) == Leaps(y') + 367 * m' / 12 + 1 + y' * 365 - 719499
  {
    YearsClosed(y);
    MonthsClosed(m, y);
    LeapsStep(y);
    MarchMonths(m);
    hide Leaps, IsLeap, DaysToYear, DaysToMonth, MonthTable;
  }

  /** The day within the year, from the estimate that a year has 365 days; it is corrected by one year at most. */
  function EstimatedYear(days: nat): (y: nat)
    ensures y >= 1970
  {
    1970 + days / 365
  }

  /** The leap days since 1970 that the estimate ignores are made up for by the part of a year left over and one year. */
  predicate EstimateHolds(days: nat) {
    Leaps(EstimatedYear(days) - 1) - 477 <= days % 365 + YearDays(EstimatedYear(days) - 1)
  }

  /** A date of the calendar and a time of day, of any year from 1970 on. */
  predicate RealDate(t: Tm) {
    && 70 <= t.year && 0 <= t.mon < 12 && 1 <= t.mday <= MonthDays(t.mon, t.year + 1900)
    && 0 <= t.hour < 24 && 0 <= t.min < 60 && 0 <= t.sec < 60
  }

  /** The year and the days in it that remain; negative if the estimate was off by more than one year. */
  method SplitYear(days0: nat) returns (year: nat, days: int)
    ensures EstimateHolds(days0) <==> days >= 0
    ensures EstimateHolds(days0) ==> year >= 1970 && days < YearDays(year) && DaysToYear(year) + days == days0
    ensures year + 1 >= 1970
  {
    hide Leaps, IsLeap;
    year := 1970 + days0 / 365;
    YearsClosed(year);
    LeapsTo1969();
    LeapsGrow(year - 1);
    days := days0 - ((year - 1970) * 365 + Leaps(year - 1) - Leaps(1969));
    assert days == days0 % 365 - (Leaps(year - 1) - 477);
    if days < 0 {
      year := year - 1;
      days := days + YearDays(year);
      NextYear(year);
    }
  }

  lemma LeapsTo1969()
    ensures Leaps(1969) == 477
  {
  }

  lemma {:induction false} LeapsGrow(y: nat)
    requires y >= 1969
    ensures Leaps(y) >= 477
    decreases y
  {
    if y > 1969 {
      LeapsGrow(y - 1);
      LeapsStep(y);
    } else {
      LeapsTo1969();
    }
  }

  lemma NextYear(y: nat)
    ensures y >= 1970 ==> DaysToYear(y + 1) == DaysToYear(y) + YearDays(y)
  {
  }

  /** The month loop. */
  method SplitMonth(year: nat, days0: int) returns (month: nat, days: int)
    requires days0 < YearDays(year)
    ensures month < 12
    ensures days0 < 0 ==> month == 0 && days == days0
    ensures days0 >= 0 ==> 0 <= days < MonthDays(month, year) && DaysToMonth(month, year) + days == days0
  {
    hide IsLeap;
    WholeYear(year);
    month, days := 0, days0;
    while month < 11
      invariant 0 <= month <= 11 && DaysToMonth(month, year) + days == days0
      invariant if days0 < 0 then month == 0 else days >= 0
    {
      var newdays := days - MonthDays(month, year);
      if newdays < 0 {
        break;
      }
      days := newdays;
      month := month + 1;
    }
  }

  lemma WholeYear(y: nat)
    ensures DaysToMonth(12, y) == YearDays(y) && DaysToMonth(12, y) == DaysToMonth(11, y) + MonthDays(11, y)
  {
    MonthsClosed(12, y);
  }

  /** The last day whose seconds fit an unsigned int: 7 February 2106. */
  const LAST_DAY := 49710

  /** rtc_time_to_tm: a date and time if and only if the days times 86400 fit an unsigned int, and then those of that
      second. */
  method TimeToTm(time: nat) returns (tm: Tm)
    requires time / 86400 < 0x8000_0000
    ensures RealDate(tm) <==> time / 86400 <= LAST_DAY
    ensures RealDate(tm) ==> Seconds(tm) == time
    ensures RealDate(tm) ==> tm.yday == DaysToMonth(tm.mon, tm.year + 1900) + tm.mday
    ensures tm.wday == (time / 86400 + 4) % 7
  {
    hide DaysToYear, DaysToMonth, IsLeap, EstimateHolds, MonthDays;
    var days0 := time / 86400;
    SecondsLeft(time);
    hide Unsigned;
    var secs := time - Unsigned(days0 * 86400);
    if days0 <= LAST_DAY {
      EstimateFine(days0);
    }
    var year, days := SplitYear(days0);
    var yday := days + 1;
    var month;
    month, days := SplitMonth(year, days);
    var hour := secs / 3600;
    secs := secs - hour * 3600;
    var min := secs / 60;
    tm := Tm(secs - min * 60, min, hour, days + 1, month, year - 1900, (days0 + 4) % 7, yday);
  }

  /** The seconds of the day, or a number too large for one. */
  lemma SecondsLeft(time: nat)
    ensures var days := time / 86400; var secs := time - Unsigned(days * 86400);
      && (days <= LAST_DAY ==> secs == time % 86400)
      && (days > LAST_DAY ==> secs >= WRAP)
  {
    var days := time / 86400;
    var p := days * 86400;
    assert p == WRAP * (p / WRAP) + p % WRAP;
  }

  /** So early the leap days ignored are few. */
  lemma EstimateFine(days: nat)
    requires days <= LAST_DAY
    ensures EstimateHolds(days)
  {
    assert Leaps(2105) == 510;
    LeapsUpTo(EstimatedYear(days) - 1, 2105);
  }

  /** Through 2099 a date passes rtc_valid_tm. */
  lemma Until2100(t: Tm)
    requires RealDate(t)
    ensures Seconds(t) < DaysToYear(2100) * 86400 <==> ValidTm(t)
    ensures DaysToYear(2100) <= LAST_DAY
  {
    hide DaysToYear, DaysToMonth, IsLeap, MonthDays;
    To2100();
    InYear(t);
    if t.year > 199 {
      YearsGrow(2100, t.year + 1900);
    } else {
      YearsGrow(t.year + 1901, 2100);
    }
  }

  lemma To2100()
    ensures DaysToYear(2100) == 47482
  {
    YearsClosed(2100);
    assert Leaps(2099) == 509;
  }

  /** A date lies in its year. */
  lemma InYear(t: Tm)
    requires RealDate(t)
    ensures DaysToYear(t.year + 1900) * 86400 <= Seconds(t) < DaysToYear(t.year + 1901) * 86400
  {
    hide IsLeap;
    WholeYear(t.year + 1900);
    MonthsGrow(t.mon + 1, 12, t.year + 1900);
    NextYear(t.year + 1900);
  }

  lemma {:induction false} LeapsUpTo(y: nat, z: nat)
    requires y <= z
    ensures Leaps(y) <= Leaps(z)
    decreases z
  {
    if y < z {
      LeapsUpTo(y, z - 1);
      LeapsStep(z);
    }
  }

  lemma {:induction false} YearsGrow(y: nat, z: nat)
    requires y <= z
    ensures DaysToYear(y) <= DaysToYear(z)
    decreases z
  {
    if y < z {
      YearsGrow(y, z - 1);
    }
  }

  lemma {:induction false} MonthsGrow(m: nat, n: nat, y: int)
    requires m <= n <= 12
    ensures DaysToMonth(m, y) <= DaysToMonth(n, y)
    decreases n
  {
    if m < n {
      MonthsGrow(m, n - 1, y);
    }
  }

  function DayOf(t: Tm): (d: int)
    requires RealDate(t)
  {
    DaysToYear(t.year + 1900) + DaysToMonth(t.mon, t.year + 1900) + t.mday - 1
  }

  /** An earlier year or month is an earlier day. */
  lemma DaysOrdered(a: Tm, b: Tm)
    requires RealDate(a) && RealDate(b)
    ensures a.year < b.year ==> DayOf(a) < DayOf(b)
    ensures a.year == b.year && a.mon < b.mon ==> DayOf(a) < DayOf(b)
  {
    hide IsLeap;
    WholeYear(a.year + 1900);
    MonthsGrow(a.mon + 1, 12, a.year + 1900);
    if a.year < b.year {
      NextYear(a.year + 1900);
      YearsGrow(a.year + 1901, b.year + 1900);
    } else if a.year == b.year && a.mon < b.mon {
      MonthsGrow(a.mon + 1, b.mon, a.year + 1900);
    }
  }

  lemma TimeOfDay(a: Tm, b: Tm)
    requires RealDate(a) && RealDate(b) && Seconds(a) == Seconds(b)
    ensures DayOf(a) == DayOf(b) && a.hour == b.hour && a.min == b.min && a.sec == b.sec
  {
    hide DaysToYear, DaysToMonth, MonthDays;
    var x, y := a.hour * 3600 + a.min * 60 + a.sec, b.hour * 3600 + b.min * 60 + b.sec;
    assert 0 <= x < 86400 && 0 <= y < 86400;
    assert DayOf(a) * 86400 + x == DayOf(b) * 86400 + y;
  }

  /** A second belongs to one date only, so that rtc_time_to_tm also undoes rtc_tm_to_time. */
  lemma OneDate(a: Tm, b: Tm)
    requires RealDate(a) && RealDate(b) && Seconds(a) == Seconds(b)
    ensures a.(wday := 0, yday := 0) == b.(wday := 0, yday := 0)
  {
    hide DaysToYear, DaysToMonth, MonthDays, IsLeap;
    TimeOfDay(a, b);
    DaysOrdered(a, b);
    DaysOrdered(b, a);
  }

  // ---------------------------------------------------------------- the calendar, by its marks

  /** Every fourth year, but of the centuries only every fourth. */
  lemma LeapYears()
    ensures !IsLeap(1900) && IsLeap(2000) && !IsLeap(2023) && IsLeap(2024) && !IsLeap(2100) && IsLeap(2400)
  {
  }

  /** 400 years are 146097 days, wherever they begin, and 97 of them are leap years. */
  lemma FourCenturies(y: nat)
    requires y >= 1
    ensures DaysToYear(y + 400) == DaysToYear(y) + 146097
    ensures Leaps(y + 400) == Leaps(y) + 97
  {
    YearsClosed(y);
    YearsClosed(y + 400);
    Leaps400(y - 1);
    Leaps400(y);
    hide DaysToYear, Leaps;
  }

  lemma Leaps400(y: nat)
    ensures Leaps(y + 400) == Leaps(y) + 97
  {
    assert (y + 400) / 4 == y / 4 + 100 && (y + 400) / 100 == y / 100 + 4 && (y + 400) / 400 == y / 400 + 1;
  }

  lemma KnownDays(y: nat)
    ensures y == 1970 ==> DaysToYear(y) == 0
    ensures y == 2000 ==> DaysToYear(y) == 10957
    ensures y == 2024 ==> DaysToYear(y) == 19723
    ensures y == 2038 ==> DaysToYear(y) == 24837
  {
    hide DaysToYear;
    if y >= 1 {
      YearsClosed(y);
    }
  }

  /** Known seconds: the Epoch, the first of January 2000, noon of a leap day, and the last second of a signed 32-bit
      time. */
  lemma KnownSeconds(t: Tm)
    ensures t == Tm(0, 0, 0, 1, 0, 70, t.wday, t.yday) ==> Seconds(t) == 0
    ensures t == Tm(0, 0, 0, 1, 0, 100, t.wday, t.yday) ==> Seconds(t) == 946684800
    ensures t == Tm(0, 0, 12, 29, 1, 124, t.wday, t.yday) ==> Seconds(t) == 1709208000
    ensures t == Tm(7, 14, 3, 19, 0, 138, t.wday, t.yday) ==> Seconds(t) == 0x7fff_ffff
  {
    hide DaysToYear, DaysToMonth, IsLeap;
    if t.year >= -1900 && (t.mon == 0 || t.mon == 1) {
      KnownDays(t.year + 1900);
      MonthsClosed(t.mon, t.year + 1900);
    }
  }
}

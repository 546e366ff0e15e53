/** The date arithmetic behind the frame log's RFC 3339 timestamps (src/observability/frame_log.rs),
    against a direct definition of the proleptic Gregorian calendar. */
module Calendar {

  // ----- The Gregorian calendar (leap rule of Appendix C of RFC 3339) -----

  datatype Date = Date(year: int, month: int, day: int)

  predicate IsLeap(year: int) {
    year % 4 == 0 && (year % 100 != 0 || year % 400 == 0)
  }

  function DaysInMonth(year: int, month: int): int {
    if month == 2 then (if IsLeap(year) then 29 else 28)
    else if month == 4 || month == 6 || month == 9 || month == 11 then 30
    else 31
  }

  predicate ValidDate(d: Date) {
    1 <= d.month <= 12 && 1 <= d.day <= DaysInMonth(d.year, d.month)
  }

  /** The day after. */
  function NextDate(d: Date): Date {
    if d.day < DaysInMonth(d.year, d.month) then d.(day := d.day + 1)
    else if d.month < 12 then Date(d.year, d.month + 1, 1)
    else Date(d.year + 1, 1, 1)
  }

  predicate Before(a: Date, b: Date) {
    || a.year < b.year
    || (a.year == b.year && a.month < b.month)
    || (a.year == b.year && a.month == b.month && a.day < b.day)
  }

  /** Days before the first of March of a year, counted from the first of March of year 0. */
  function DaysBeforeMarch(year: int): int {
    365 * year + year / 4 - year / 100 + year / 400
  }

  /** Days from the first of March to the first of a month, March being 0 and February 11. */
  function DaysBeforeMonth(m: int): int {
    [0, 31, 61, 92, 122, 153, 184, 214, 245, 275, 306, 337][if 0 <= m < 12 then m else 0]
  }

  /** The number of a date, the first of January 1970 being 0: the inverse to be met. */
  function DayNumber(d: Date): int {
    var year, m := if d.month <= 2 then d.year - 1 else d.year, if d.month <= 2 then d.month + 9 else d.month - 3;
    DaysBeforeMarch(year) + DaysBeforeMonth(m) + d.day - 1 - 719_468
  }

  /** A year that ends in February has a day more when that February is a leap one. */
  lemma YearLength(year: int)
    ensures DaysBeforeMarch(year + 1) == DaysBeforeMarch(year) + (if IsLeap(year + 1) then 366 else 365)
  {
    assert (year + 1) / 4 == year / 4 + if (year + 1) % 4 == 0 then 1 else 0;
    assert (year + 1) / 100 == year / 100 + if (year + 1) % 100 == 0 then 1 else 0;
    assert (year + 1) / 400 == year / 400 + if (year + 1) % 400 == 0 then 1 else 0;
    assert (year + 1) % 100 == 0 ==> (year + 1) % 4 == 0;
    assert (year + 1) % 400 == 0 ==> (year + 1) % 100 == 0;
  }

  /** The number of the next date is the next number, so `DayNumber` counts days. */
  lemma DayNumberCounts(d: Date)
    requires ValidDate(d)
    ensures ValidDate(NextDate(d)) && DayNumber(NextDate(d)) == DayNumber(d) + 1
  {
    YearLength(d.year - 1);
    hide DaysBeforeMarch, IsLeap;
  }

  // ----- The algorithm -----

  /** Rust's integer division. */
  function TruncDiv(a: int, b: int): int
    requires b > 0
  {
    if a >= 0 then a / b else -((-a) / b)
  }

  function Era(z: int): int { TruncDiv(if z >= 0 then z else z - 146_096, 146_097) }

  function YearOfEra(doe: int): int { (doe - doe / 1460 + doe / 36_524 - doe / 146_096) / 365 }

  function DayOfYear(doe: int, yoe: int): int { doe - (365 * yoe + yoe / 4 - yoe / 100) }

  function MonthFromMarch(doy: int): int { (5 * doy + 2) / 153 }

  function DayOfMonth(doy: int, mp: int): int { doy - (153 * mp + 2) / 5 + 1 }

  function CivilFromDays(days: int): Date {
    var z := days + 719_468;
    var era := Era(z);
    var doe := z - era * 146_097;
    var yoe := YearOfEra(doe);
    var y := yoe + era * 400;
    var doy := DayOfYear(doe, yoe);
    var mp := MonthFromMarch(doy);
    var m := if mp < 10 then mp + 3 else mp - 9;
    Date(if m <= 2 then y + 1 else y, m, DayOfMonth(doy, mp))
  }

  lemma EraIsFloor(z: int)
    ensures Era(z) == z / 146_097 && 0 <= z - Era(z) * 146_097 < 146_097
  {
  }

  /** Within a four-year cycle of a century: `t` days into it, the correction `u` for the leap days
      already passed leaves the year of the cycle right. */
  lemma YearOfCycle(t: int, u: int)
    requires 0 <= t < 1461 && 0 <= u <= 1 && (u == 1 ==> 1364 <= t) && (t == 1460 ==> u == 1)
    ensures 0 <= (t - u) / 365 <= 3
    ensures 365 * ((t - u) / 365) <= t
    ensures (t - u) / 365 < 3 ==> t < 365 * ((t - u) / 365 + 1)
  {
  }

  /** The algorithm's year, from the century `b`, the cycle `q` in it and the days `t` in that. */
  lemma YearOfEraSplit(b: int, q: int, t: int) returns (v: int)
    requires 0 <= b <= 3 && 0 <= q <= 24 && 0 <= t < 1461 && 1461 * q + t < 36_524
    ensures 0 <= v <= 3 && 365 * v <= t && (v < 3 ==> t < 365 * (v + 1))
    ensures YearOfEra(36_524 * b + 1461 * q + t) == 100 * b + 4 * q + v
  {
    var doe := 36_524 * b + 1461 * q + t;
    var u := (24 * b + q + t) / 1460;
    v := (t - u) / 365;
    YearOfCycle(t, u);
    assert doe / 1460 == 25 * b + q + u by {
      assert doe == 1460 * (25 * b + q) + (24 * b + q + t);
    }
    assert doe / 36_524 == b;
    assert doe / 146_096 == 0;
    assert doe - doe / 1460 + doe / 36_524 - doe / 146_096 == 365 * (100 * b + 4 * q) + (t - u);
  }

  /** The year of the era is the one whose March starts at or before the day and whose next March
      starts after it. */
  lemma YearOfEraCorrect(doe: int)
    requires 0 <= doe < 146_097
    ensures 0 <= YearOfEra(doe) < 400
    ensures DaysBeforeMarch(YearOfEra(doe)) <= doe
    ensures doe < DaysBeforeMarch(YearOfEra(doe) + 1)
  {
    hide YearOfEra;
    var b := doe / 36_524;
    if b == 4 {
      LastDayOfEra(doe);
    } else {
      var r := doe - 36_524 * b;
      var q := r / 1461;
      var t := r - 1461 * q;
      var v := YearOfEraSplit(b, q, t);
      MarchOfCentury(b, 4 * q + v);
      MarchOfCentury(b, 4 * q + v + 1);
    }
  }

  lemma LastDayOfEra(doe: int)
    requires doe == 146_096
    ensures YearOfEra(doe) == 399
  {
  }

  /** Leap days within a century. */
  lemma MarchOfCentury(b: int, w: int)
    requires 0 <= b <= 3 && 0 <= w <= 100
    ensures w < 100 ==> DaysBeforeMarch(100 * b + w) == 36_524 * b + 365 * w + w / 4
    ensures w == 100 ==> DaysBeforeMarch(100 * b + w) >= 36_524 * (b + 1)
  {
    assert (100 * b + w) / 4 == 25 * b + w / 4;
    if w < 100 {
      assert (100 * b + w) / 100 == b;
      assert (100 * b + w) / 400 == 0;
    }
  }

  lemma MonthCorrect(doy: int)
    requires 0 <= doy < 366
    ensures 0 <= MonthFromMarch(doy) < 12
    ensures DaysBeforeMonth(MonthFromMarch(doy)) == (153 * MonthFromMarch(doy) + 2) / 5 <= doy
    ensures MonthFromMarch(doy) < 11 ==> doy < DaysBeforeMonth(MonthFromMarch(doy) + 1)
  {
  }

  /** Eras repeat: 400 years are 146097 days and keep the leap years. */
  lemma EraShift(year: int, era: int)
    ensures DaysBeforeMarch(year + 400 * era) == DaysBeforeMarch(year) + 146_097 * era
    ensures IsLeap(year + 400 * era) == IsLeap(year)
  {
    assert (year + 400 * era) / 4 == year / 4 + 100 * era;
    assert (year + 400 * era) / 100 == year / 100 + 4 * era;
    assert (year + 400 * era) / 400 == year / 400 + era;
  }

  /** The day of the year runs from 0 to 365, and reaches 365 only in a year that ends in a leap
      February. */
  lemma DayOfYearCorrect(doe: int)
    requires 0 <= doe < 146_097
    ensures var yoe := YearOfEra(doe);
            var doy := DayOfYear(doe, yoe);
            && 0 <= yoe <= 399 && 0 <= doy <= 365
            && (doy == 365 ==> IsLeap(yoe + 1))
            && DaysBeforeMarch(yoe) + doy == doe
  {
    YearOfEraCorrect(doe);
    YearLength(YearOfEra(doe));
    hide YearOfEra, IsLeap;
  }

  /** The date `doy` days after the first of March of a year. */
  function DateFromMarch(year: int, doy: int): Date {
    var mp := MonthFromMarch(doy);
    var m := if mp < 10 then mp + 3 else mp - 9;
    Date(if m <= 2 then year + 1 else year, m, DayOfMonth(doy, mp))
  }

  lemma DateFromMarchCorrect(year: int, doy: int)
    requires 0 <= doy <= 365 && (doy == 365 ==> IsLeap(year + 1))
    ensures ValidDate(DateFromMarch(year, doy))
    ensures DayNumber(DateFromMarch(year, doy)) == DaysBeforeMarch(year) + doy - 719_468
  {
    MonthCorrect(doy);
    hide MonthFromMarch, IsLeap, DaysBeforeMarch;
  }

  /** Every day count yields a valid date whose number is that count; the intermediate values stay in
      their documented ranges. */
  lemma CivilCorrect(days: int)
    ensures ValidDate(CivilFromDays(days)) && DayNumber(CivilFromDays(days)) == days
    ensures var z := days + 719_468;
            var doe := z - Era(z) * 146_097;
            && 0 <= doe <= 146_096
            && 0 <= YearOfEra(doe) <= 399
            && 0 <= DayOfYear(doe, YearOfEra(doe)) <= 365
            && 0 <= MonthFromMarch(DayOfYear(doe, YearOfEra(doe))) <= 11
  {
    hide CivilFromDays, DateFromMarch, DayNumber, Era, YearOfEra, DaysBeforeMarch, DayOfYear, MonthFromMarch, IsLeap;
    var z := days + 719_468;
    var doe := z - Era(z) * 146_097;
    EraIsFloor(z);
    DayOfYearCorrect(doe);
    var yoe := YearOfEra(doe);
    var doy := DayOfYear(doe, yoe);
    MonthCorrect(doy);
    EraShift(yoe, Era(z));
    EraShift(yoe + 1, Era(z));
    assert yoe + 1 + 400 * Era(z) == (yoe + 400 * Era(z)) + 1;
    DateFromMarchCorrect(yoe + 400 * Era(z), doy);
    CivilFromMarch(days);
  }

  lemma CivilFromMarch(days: int)
    ensures var z := days + 719_468;
            var doe := z - Era(z) * 146_097;
            CivilFromDays(days) == DateFromMarch(YearOfEra(doe) + 400 * Era(z), DayOfYear(doe, YearOfEra(doe)))
  {
    hide Era, YearOfEra, DayOfYear, MonthFromMarch, DayOfMonth;
  }

  // ----- What it means for the dates -----

  /** Later dates have greater numbers, so the numbers tell dates apart. */
  lemma DayNumberMonotone(a: Date, b: Date)
    requires ValidDate(a) && ValidDate(b) && Before(a, b)
    ensures DayNumber(a) < DayNumber(b)
  {
    hide DayNumber, NewYear, DaysInMonth, IsLeap;
    NumberWithinYear(a);
    NumberWithinYear(b);
    if a.year < b.year {
      YearStarts(a.year + 1, b.year);
    }
  }

  /** The number of the first of January. */
  function NewYear(year: int): int { DayNumber(Date(year, 1, 1)) }

  lemma NumberWithinYear(d: Date)
    requires ValidDate(d)
    ensures NewYear(d.year) <= DayNumber(d) < NewYear(d.year + 1)
    ensures DayNumber(d) == DayNumber(Date(d.year, d.month, 1)) + d.day - 1
    ensures forall m :: d.month < m <= 12 ==> DayNumber(d) < DayNumber(Date(d.year, m, 1))
  {
    YearLength(d.year - 1);
    hide DaysBeforeMarch, IsLeap;
  }

  lemma {:induction false} YearStarts(year: int, later: int)
    requires year <= later
    ensures NewYear(year) <= NewYear(later)
    decreases later - year
  {
    if year < later {
      YearStarts(year, later - 1);
      YearLength(later - 2);
      hide DaysBeforeMarch, IsLeap;
    }
  }

  /** `DayNumber` is the inverse of the algorithm, both ways. */
  lemma CivilInverse(d: Date)
    requires ValidDate(d)
    ensures CivilFromDays(DayNumber(d)) == d
  {
    hide DayNumber, CivilFromDays;
    var e := CivilFromDays(DayNumber(d));
    CivilCorrect(DayNumber(d));
    if Before(d, e) {
      DayNumberMonotone(d, e);
    } else if Before(e, d) {
      DayNumberMonotone(e, d);
    }
  }

  lemma DayNumberOfEpoch()
    ensures ValidDate(Date(1970, 1, 1)) && DayNumber(Date(1970, 1, 1)) == 0
  {
  }

  lemma Epoch()
    ensures CivilFromDays(0) == Date(1970, 1, 1)
  {
    hide CivilFromDays, DayNumber;
    DayNumberOfEpoch();
    CivilInverse(Date(1970, 1, 1));
  }

  /** The next day count is the calendar's next date. */
  lemma CivilSuccessor(days: int)
    ensures CivilFromDays(days + 1) == NextDate(CivilFromDays(days))
  {
    hide DayNumber, CivilFromDays, NextDate, ValidDate;
    CivilCorrect(days);
    DayNumberCounts(CivilFromDays(days));
    CivilInverse(NextDate(CivilFromDays(days)));
  }

  /** Day counts and dates are in the same order. */
  lemma CivilMonotone(m: int, n: int)
    ensures m < n <==> Before(CivilFromDays(m), CivilFromDays(n))
  {
    hide DayNumber, CivilFromDays;
    CivilCorrect(m);
    CivilCorrect(n);
    var a, b := CivilFromDays(m), CivilFromDays(n);
    if Before(a, b) {
      DayNumberMonotone(a, b);
    } else if Before(b, a) {
      DayNumberMonotone(b, a);
    }
  }

  // ----- The timestamp's fields -----

  datatype Moment = Moment(date: Date, hour: int, minute: int, second: int)

  function MomentOf(secs: nat): Moment {
    var rem := secs % 86_400;
    Moment(CivilFromDays(secs / 86_400), rem / 3600, (rem % 3600) / 60, rem % 60)
  }

  predicate Earlier(a: Moment, b: Moment) {
    || Before(a.date, b.date)
    || (a.date == b.date && a.hour < b.hour)
    || (a.date == b.date && a.hour == b.hour && a.minute < b.minute)
    || (a.date == b.date && a.hour == b.hour && a.minute == b.minute && a.second < b.second)
  }

  lemma ClockFace(rem: int)
    requires 0 <= rem < 86_400
    ensures 0 <= rem / 3600 < 24 && 0 <= (rem % 3600) / 60 < 60 && 0 <= rem % 60 < 60
    ensures 3600 * (rem / 3600) + 60 * ((rem % 3600) / 60) + rem % 60 == rem
  {
    var h := rem / 3600;
    var r := rem - 3600 * h;
    assert r == rem % 3600;
    assert rem % 60 == r % 60 by {
      assert rem == 60 * (60 * h) + r;
    }
  }

  /** The fields are in range and lose nothing of the count of seconds they come from. */
  lemma MomentExact(secs: nat)
    ensures var t := MomentOf(secs);
            && ValidDate(t.date) && 0 <= t.hour < 24 && 0 <= t.minute < 60 && 0 <= t.second < 60
            && 86_400 * DayNumber(t.date) + 3600 * t.hour + 60 * t.minute + t.second == secs
  {
    hide CivilFromDays, DayNumber, ValidDate;
    CivilCorrect(secs / 86_400);
    ClockFace(secs % 86_400);
    assert secs == 86_400 * (secs / 86_400) + secs % 86_400;
  }

  /** Timestamps are ordered as the instants they were taken at. */
  lemma MomentsOrdered(a: nat, b: nat)
    ensures a < b <==> Earlier(MomentOf(a), MomentOf(b))
  {
    hide CivilFromDays, Before, DayNumber, ValidDate;
    CivilMonotone(a / 86_400, b / 86_400);
    CivilMonotone(b / 86_400, a / 86_400);
    MomentExact(a);
    MomentExact(b);
    DatesOrdered(MomentOf(a).date, MomentOf(b).date);
  }

  lemma DatesOrdered(a: Date, b: Date)
    ensures !(Before(a, b) && Before(b, a)) && (Before(a, b) || Before(b, a) || a == b) && !Before(a, a)
  {
  }
}

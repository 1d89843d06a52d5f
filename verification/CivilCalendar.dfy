/** The RFC 3339 timestamp of lifecycle events (src-tauri/src/events.rs): the hand-written
    civil-from-days arithmetic, against the Gregorian calendar stated independently of it. */
module CivilCalendar {
  // ------------------------------------------------- the Gregorian calendar

  datatype Date = Date(year: nat, month: nat, day: nat)

  predicate IsLeap(y: nat)
  {
    y % 4 == 0 && (y % 100 != 0 || y % 400 == 0)
  }

  function DaysInMonth(y: nat, m: nat): (n: nat)
    ensures n <= 31
  {
    if m == 2 then (if IsLeap(y) then 29 else 28)
    else if m == 4 || m == 6 || m == 9 || m == 11 then 30
    else 31
  }

  predicate ValidDate(d: Date)
  {
    d.year >= 1 && 1 <= d.month <= 12 && 1 <= d.day <= DaysInMonth(d.year, d.month)
  }

  /** The day after `d`, as a calendar on the wall has it. */
  function NextDay(d: Date): Date
  {
    if d.day < DaysInMonth(d.year, d.month) then Date(d.year, d.month, d.day + 1)
    else if d.month < 12 then Date(d.year, d.month + 1, 1)
    else Date(d.year + 1, 1, 1)
  }

  function DaysBeforeYear(y: nat): nat
    requires y >= 1
  {
    365 * (y - 1) + (y - 1) / 4 - (y - 1) / 100 + (y - 1) / 400
  }

  function DaysBeforeMonth(y: nat, m: nat): nat
  {
    if m <= 1 then 0 else DaysBeforeMonth(y, m - 1) + DaysInMonth(y, m - 1)
  }

  /** 1 for 0001-01-01, and one more for every day since. */
  function Ordinal(d: Date): nat
    requires d.year >= 1
  {
    DaysBeforeYear(d.year) + DaysBeforeMonth(d.year, d.month) + d.day
  }

  const EPOCH_ORDINAL: nat := 719163

  predicate DateLess(a: Date, b: Date)
  {
    a.year < b.year || (a.year == b.year && (a.month < b.month || (a.month == b.month && a.day < b.day)))
  }

  lemma YearLength(y: nat)
    requires y >= 1
    ensures DaysBeforeYear(y + 1) == DaysBeforeYear(y) + (if IsLeap(y) then 366 else 365)
  {
    YearBefore4(y);
    YearBefore100(y);
    YearBefore400(y);
    LeapRules(y);
  }

  lemma LeapRules(y: nat)
    ensures y % 400 == 0 ==> y % 100 == 0
    ensures y % 100 == 0 ==> y % 4 == 0
  {
    if y % 400 == 0 {
      HundredsOf(y, 4 * (y / 400));
    }
    if y % 100 == 0 {
      FoursOf(y, 25 * (y / 100));
    }
  }

  lemma HundredsOf(y: nat, k: nat)
    requires y == 100 * k
    ensures y % 100 == 0
  {
  }

  lemma FoursOf(y: nat, k: nat)
    requires y == 4 * k
    ensures y % 4 == 0
  {
  }

  lemma YearBefore4(y: nat)
    requires y >= 1
    ensures (y - 1) / 4 == y / 4 - (if y % 4 == 0 then 1 else 0)
  {
  }

  lemma YearBefore100(y: nat)
    requires y >= 1
    ensures (y - 1) / 100 == y / 100 - (if y % 100 == 0 then 1 else 0)
  {
  }

  lemma YearBefore400(y: nat)
    requires y >= 1
    ensures (y - 1) / 400 == y / 400 - (if y % 400 == 0 then 1 else 0)
  {
  }

  lemma MonthStarts(y: nat)
    ensures DaysBeforeMonth(y, 12) + 31 == if IsLeap(y) then 366 else 365
    ensures DaysBeforeMonth(y, 1) == 0
  {
    var feb := DaysInMonth(y, 2);
    assert DaysBeforeMonth(y, 2) == 31;
    assert DaysBeforeMonth(y, 3) == 31 + feb;
    assert DaysBeforeMonth(y, 4) == 62 + feb;
    assert DaysBeforeMonth(y, 5) == 92 + feb;
    assert DaysBeforeMonth(y, 6) == 123 + feb;
    assert DaysBeforeMonth(y, 7) == 153 + feb;
    assert DaysBeforeMonth(y, 8) == 184 + feb;
    assert DaysBeforeMonth(y, 9) == 215 + feb;
    assert DaysBeforeMonth(y, 10) == 245 + feb;
    assert DaysBeforeMonth(y, 11) == 276 + feb;
  }

  lemma {:induction false} MonthsInOrder(y: nat, m: nat, n: nat)
    requires 1 <= m < n
    ensures DaysBeforeMonth(y, m) + DaysInMonth(y, m) <= DaysBeforeMonth(y, n)
  {
    if m < n - 1 {
      MonthsInOrder(y, m, n - 1);
    }
  }

  lemma {:induction false} YearsInOrder(y: nat, z: nat)
    requires 1 <= y < z
    ensures DaysBeforeYear(y) + (if IsLeap(y) then 366 else 365) <= DaysBeforeYear(z)
  {
    YearLength(z - 1);
    if y < z - 1 {
      YearsInOrder(y, z - 1);
    }
  }

  lemma OrdinalNext(d: Date)
    requires ValidDate(d)
    ensures ValidDate(NextDay(d)) && Ordinal(NextDay(d)) == Ordinal(d) + 1
  {
    if d.day < DaysInMonth(d.year, d.month) {
    } else if d.month < 12 {
      assert NextDay(d) == Date(d.year, d.month + 1, 1);
    } else {
      LastDayNext(d);
    }
  }

  lemma LastDayNext(d: Date)
    requires ValidDate(d) && d.month == 12 && d.day == 31
    ensures NextDay(d) == Date(d.year + 1, 1, 1) && Ordinal(NextDay(d)) == Ordinal(d) + 1
  {
    MonthStarts(d.year);
    MonthStarts(d.year + 1);
    YearLength(d.year);
  }

  lemma DayWithinYear(d: Date)
    requires ValidDate(d)
    ensures 1 <= DaysBeforeMonth(d.year, d.month) + d.day <= if IsLeap(d.year) then 366 else 365
  {
    MonthStarts(d.year);
    if d.month < 12 {
      MonthsInOrder(d.year, d.month, 12);
    }
  }

  lemma OrdinalOrder(a: Date, b: Date)
    requires ValidDate(a) && ValidDate(b)
    ensures DateLess(a, b) <==> Ordinal(a) < Ordinal(b)
    ensures a == b <==> Ordinal(a) == Ordinal(b)
  {
    if DateLess(a, b) {
      OrdinalIncreases(a, b);
    } else if DateLess(b, a) {
      OrdinalIncreases(b, a);
    }
  }

  lemma OrdinalIncreases(a: Date, b: Date)
    requires ValidDate(a) && ValidDate(b) && DateLess(a, b)
    ensures Ordinal(a) < Ordinal(b)
  {
    DayWithinYear(a);
    DayWithinYear(b);
    if a.year < b.year {
      YearsInOrder(a.year, b.year);
    } else if a.month < b.month {
      MonthsInOrder(a.year, a.month, b.month);
    }
  }

  // ------------------------------------------------- the conversion as written

  /** First day, within a 400-year era, of the March-based year `yoe`. */
  function YearStart(yoe: nat): (doe: nat)
    ensures doe >= 365 * yoe
  {
    365 * yoe + yoe / 4 - yoe / 100
  }

  function YearOfEra(doe: nat): (yoe: nat)
  {
    var a: nat := doe - doe / 1460;
    var b: nat := a + doe / 36524 - doe / 146096;
    b / 365
  }

  /** The date of the day `doy` of the March-based year `y`. */
  function FromDayOfYear(y: nat, doy: nat): Date
  {
    var mp := (5 * doy + 2) / 153;
    var before: nat := doy - (153 * mp + 2) / 5;
    var d: nat := before + 1;
    var m: nat := if mp < 10 then mp + 3 else mp - 9;
    Date(if m <= 2 then y + 1 else y, m, d)
  }

  function FromDayOfEra(era: nat, doe: nat): Date
    requires doe <= 146096
  {
    var yoe := YearOfEra(doe);
    YearOfEraBracket(doe);
    var doy: nat := doe - YearStart(yoe);
    FromDayOfYear(yoe + era * 400, doy)
  }

  /** Every subtraction here and above is checked to stay non-negative, as its unsigned type needs. */
  function CivilFromDays(days: nat): Date
  {
    var z := days + 719468;
    var era := (if z >= 0 then z else z - 146096) / 146097;
    var doe: nat := z - era * 146097;
    FromDayOfEra(era, doe)
  }

  lemma YearOfEraSplit(c: nat, q: nat, s: nat)
    requires c <= 3 && q <= 24 && s <= 1460 && 1461 * q + s < 36524
    ensures YearOfEra(36524 * c + 1461 * q + s) == 100 * c + 4 * q + (if s == 1460 then 3 else s / 365)
  {
    var doe := 36524 * c + 1461 * q + s;
    var e := if q + s + 24 * c >= 1460 then 1 else 0;
    assert doe == 1460 * (25 * c + q) + (q + s + 24 * c);
    assert doe / 1460 == 25 * c + q + e;
    assert doe / 36524 == c;
    assert doe / 146096 == 0;
    assert doe - doe / 1460 + doe / 36524 - doe / 146096 == 365 * (100 * c + 4 * q) + (s - e);
  }

  lemma YearStartSplit(c: nat, q: nat, k: nat)
    requires c <= 3 && q <= 24 && k <= 3
    ensures YearStart(100 * c + 4 * q + k) == 36524 * c + 1461 * q + 365 * k
  {
  }

  /** The year found holds the day: it starts on or before it and the next one after it. */
  lemma YearOfEraBracket(doe: nat)
    requires doe <= 146096
    ensures var y := YearOfEra(doe);
            y <= 399 && YearStart(y) <= doe && (if y == 399 then doe <= 146096 else doe < YearStart(y + 1))
  {
    if doe < 146096 {
      var c, q, s := SplitDay(doe);
      YearOfEraSplit(c, q, s);
      BracketSplit(c, q, s, if s == 1460 then 3 else s / 365);
    }
  }

  lemma SplitDay(doe: nat) returns (c: nat, q: nat, s: nat)
    requires doe < 146096
    ensures c <= 3 && q <= 24 && s <= 1460 && 1461 * q + s < 36524 && doe == 36524 * c + 1461 * q + s
  {
    c, q, s := doe / 36524, doe % 36524 / 1461, doe % 36524 % 1461;
  }

  lemma BracketSplit(c: nat, q: nat, s: nat, k: nat)
    requires c <= 3 && q <= 24 && s <= 1460 && k <= 3 && 1461 * q + s < 36524
    requires 365 * k <= s && (if k < 3 then s < 365 * (k + 1) else s <= 1460)
    ensures var y, doe := 100 * c + 4 * q + k, 36524 * c + 1461 * q + s;
      y <= 399 && YearStart(y) <= doe && (y < 399 ==> doe < YearStart(y + 1))
  {
    YearStartSplit(c, q, k);
    if k < 3 {
      YearStartSplit(c, q, k + 1);
    } else if q < 24 {
      YearStartSplit(c, q + 1, 0);
    } else if c < 3 {
      YearStartSplit(c + 1, 0, 0);
    }
  }

  /** Days from March 1 of `y` up to, not including, March 1 of `y + 1`. */
  function MarchYearLength(y: nat): nat
  {
    if IsLeap(y + 1) then 366 else 365
  }

  lemma YearOfEraUnique(doe: nat, y: nat)
    requires y <= 399 && YearStart(y) <= doe && (if y == 399 then doe <= 146096 else doe < YearStart(y + 1))
    ensures doe <= 146096 && YearOfEra(doe) == y
  {
    YearOfEraBracket(doe);
  }

  lemma Modulo400(y: nat, k: nat)
    ensures (y + 400 * k) % 400 == y % 400
  {
  }

  lemma Modulo100(y: nat, k: nat)
    ensures (y + 100 * k) % 100 == y % 100
  {
  }

  lemma Modulo4(y: nat, k: nat)
    ensures (y + 4 * k) % 4 == y % 4
  {
  }

  /** The calendar repeats after an era of 400 years. */
  lemma LeapInEra(y: nat, era: nat)
    ensures IsLeap(y + era * 400) == IsLeap(y)
  {
    Modulo400(y, era);
    Modulo100(y, 4 * era);
    Modulo4(y, 100 * era);
  }

  lemma YearStartNext(y: nat)
    requires 1 <= y <= 399
    ensures YearStart(y) == YearStart(y - 1) + 365 + (if y % 4 == 0 && y % 100 != 0 then 1 else 0)
  {
    YearBefore4(y);
    YearBefore100(y);
    LeapRules(y);
  }

  lemma EraYearLength(era: nat, yoe: nat)
    requires yoe <= 399
    ensures (if yoe == 399 then 146097 else YearStart(yoe + 1)) == YearStart(yoe) + MarchYearLength(yoe + era * 400)
  {
    LeapInEra(yoe + 1, era);
    if yoe < 399 {
      YearStartNext(yoe + 1);
    }
  }

  lemma DayOfYearValid(y: nat, doy: nat)
    requires doy < MarchYearLength(y) && y >= 1
    ensures ValidDate(FromDayOfYear(y, doy))
  {
    var mp := (5 * doy + 2) / 153;
    assert 0 <= mp <= 11;
  }

  lemma DayOfYearNext(y: nat, doy: nat)
    requires doy < MarchYearLength(y)
    ensures NextDay(FromDayOfYear(y, doy)) ==
            if doy + 1 < MarchYearLength(y) then FromDayOfYear(y, doy + 1) else FromDayOfYear(y + 1, 0)
  {
    var mp := (5 * doy + 2) / 153;
    assert 0 <= mp <= 11;
  }

  /** `days` after the epoch is day `doy` of the March-based year `yoe` of the era. */
  predicate IsAt(days: nat, era: nat, yoe: nat, doy: nat)
  {
    && yoe <= 399
    && doy < MarchYearLength(yoe + era * 400)
    && days + 719468 == era * 146097 + YearStart(yoe) + doy
  }

  lemma Locate(days: nat) returns (era: nat, yoe: nat, doy: nat)
    ensures IsAt(days, era, yoe, doy)
  {
    var z := days + 719468;
    era := z / 146097;
    var doe := z - era * 146097;
    yoe := YearOfEra(doe);
    YearOfEraBracket(doe);
    EraYearLength(era, yoe);
    doy := doe - YearStart(yoe);
  }

  lemma DayOfEraBound(era: nat, yoe: nat, doy: nat)
    requires yoe <= 399 && doy < MarchYearLength(yoe + era * 400)
    ensures YearStart(yoe) + doy <= 146096
    ensures YearOfEra(YearStart(yoe) + doy) == yoe
  {
    EraYearLength(era, yoe);
    if yoe < 399 {
      YearStartMonotone(yoe + 1, 399);
    }
    YearOfEraUnique(YearStart(yoe) + doy, yoe);
  }

  lemma EraQuotient(days: nat, era: nat, doe: nat)
    requires days + 719468 == era * 146097 + doe && doe <= 146096
    ensures (days + 719468) / 146097 == era
  {
  }

  lemma CivilAt(days: nat, era: nat, yoe: nat, doy: nat)
    requires IsAt(days, era, yoe, doy)
    ensures CivilFromDays(days) == FromDayOfYear(yoe + era * 400, doy)
  {
    DayOfEraBound(era, yoe, doy);
    EraQuotient(days, era, YearStart(yoe) + doy);
    assert CivilFromDays(days) == FromDayOfEra(era, YearStart(yoe) + doy);
  }

  lemma {:induction false} YearStartMonotone(y: nat, z: nat)
    requires y <= z
    ensures YearStart(y) <= YearStart(z)
  {
    if y < z {
      YearStartMonotone(y, z - 1);
    }
  }

  /** The place of the following day, and that it carries the following date. */
  lemma NextAt(days: nat, era: nat, yoe: nat, doy: nat) returns (e: nat, y: nat, d: nat)
    requires IsAt(days, era, yoe, doy)
    ensures IsAt(days + 1, e, y, d)
    ensures FromDayOfYear(y + e * 400, d) == NextDay(FromDayOfYear(yoe + era * 400, doy))
  {
    EraYearLength(era, yoe);
    DayOfYearNext(yoe + era * 400, doy);
    if doy + 1 < MarchYearLength(yoe + era * 400) {
      e, y, d := era, yoe, doy + 1;
    } else if yoe < 399 {
      e, y, d := era, yoe + 1, 0;
    } else {
      e, y, d := era + 1, 0, 0;
    }
  }

  lemma CivilEpoch()
    ensures CivilFromDays(0) == Date(1970, 1, 1)
  {
    CivilAt(0, 4, 369, 306);
  }

  lemma CivilValid(days: nat)
    ensures ValidDate(CivilFromDays(days))
  {
    var era, yoe, doy := Locate(days);
    CivilAt(days, era, yoe, doy);
    DayOfYearValid(yoe + era * 400, doy);
  }

  /** The conversion steps through the calendar day by day. */
  lemma CivilNext(days: nat)
    ensures CivilFromDays(days + 1) == NextDay(CivilFromDays(days))
  {
    var era, yoe, doy := Locate(days);
    var e, y, d := NextAt(days, era, yoe, doy);
    CivilAt(days, era, yoe, doy);
    CivilAt(days + 1, e, y, d);
  }

  /** Any assignment of dates to days that starts at the epoch and steps through the
      calendar gives each day the date with its own ordinal. */
  lemma {:induction false} StepsCount(date: nat -> Date, days: nat)
    requires date(0) == Date(1970, 1, 1) && forall n: nat :: date(n + 1) == NextDay(date(n))
    ensures ValidDate(date(days)) && Ordinal(date(days)) == days + EPOCH_ORDINAL
  {
    if days == 0 {
      MonthStarts(1970);
    } else {
      StepsCount(date, days - 1);
      OrdinalNext(date(days - 1));
      assert date(days - 1 + 1) == NextDay(date(days - 1));
    }
  }

  /** The day number of the computed date is the day it was computed from. */
  lemma CivilOrdinal(days: nat)
    ensures ValidDate(CivilFromDays(days))
    ensures Ordinal(CivilFromDays(days)) == days + EPOCH_ORDINAL
  {
    CivilEpoch();
    forall n: nat ensures CivilFromDays(n + 1) == NextDay(CivilFromDays(n)) {
      CivilNext(n);
    }
    StepsCount(CivilFromDays, days);
  }

  /** Every valid date from the epoch on is reached, from exactly its own day number. */
  lemma CivilInverse(d: Date)
    requires ValidDate(d) && Ordinal(d) >= EPOCH_ORDINAL
    ensures CivilFromDays(Ordinal(d) - EPOCH_ORDINAL) == d
  {
    var days := Ordinal(d) - EPOCH_ORDINAL;
    CivilOrdinal(days);
    OrdinalOrder(CivilFromDays(days), d);
  }
}

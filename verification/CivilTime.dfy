/** Civil dates and days since the Unix epoch, both ways (src/ci.rs,
    src/project/git/repo/history.rs), against a calendar that counts day by day with the
    leap rule of Appendix C of RFC 3339. */
module CivilTime {
  import opened Common

  // ---------------------------------------------------------------------------
  // The calendar
  // ---------------------------------------------------------------------------

  datatype Date = Date(year: nat, month: nat, day: nat)

  const EPOCH := Date(1970, 1, 1)

  predicate IsLeap(year: nat) {
    year % 4 == 0 && (year % 100 != 0 || year % 400 == 0)
  }

  function DaysInMonth(year: nat, month: nat): nat {
    if month == 2 then (if IsLeap(year) then 29 else 28)
    else if month == 4 || month == 6 || month == 9 || month == 11 then 30
    else 31
  }

  predicate IsDate(date: Date) {
    1 <= date.month <= 12 && 1 <= date.day <= DaysInMonth(date.year, date.month)
  }

  predicate DateBefore(left: Date, right: Date) {
    || left.year < right.year
    || (left.year == right.year && (left.month < right.month || (left.month == right.month && left.day < right.day)))
  }

  function NextDay(date: Date): Date {
    if date.day < DaysInMonth(date.year, date.month) then date.(day := date.day + 1)
    else if date.month < 12 then Date(date.year, date.month + 1, 1)
    else Date(date.year + 1, 1, 1)
  }

  /** The date a number of days after the epoch, one day at a time. */
  function DateAfter(days: nat): Date {
    if days == 0 then EPOCH else NextDay(DateAfter(days - 1))
  }

  lemma {:induction false} DateAfterIsDate(days: nat)
    ensures IsDate(DateAfter(days)) && DateAfter(days).year >= 1970
  {
    if days > 0 {
      DateAfterIsDate(days - 1);
    }
  }

  lemma NextDayIsLater(date: Date)
    requires IsDate(date)
    ensures IsDate(NextDay(date)) && DateBefore(date, NextDay(date))
  {
  }

  lemma {:induction false} LaterDaysAreLater(earlier: nat, later: nat)
    requires earlier < later
    ensures DateBefore(DateAfter(earlier), DateAfter(later))
    decreases later
  {
    DateAfterIsDate(later - 1);
    NextDayIsLater(DateAfter(later - 1));
    if earlier < later - 1 {
      LaterDaysAreLater(earlier, later - 1);
    }
  }

  // ---------------------------------------------------------------------------
  // The two conversions
  // ---------------------------------------------------------------------------

  const TWO_TO_THE_64: int := 0x1_0000_0000_0000_0000

  /** 64-bit unsigned arithmetic wraps around. */
  function Wrap(x: int): nat {
    if 0 <= x < TWO_TO_THE_64 then x else x % TWO_TO_THE_64
  }

  function WrappedDayOfYear(month: nat, day: nat): nat {
    var m := if month > 2 then Wrap(month - 3) else Wrap(month + 9);
    Wrap(Wrap(Wrap(Wrap(153 * m) + 2) / 5 + day) - 1)
  }

  function WrappedDayOfEra(y: nat, doy: nat): nat {
    var yoe := Wrap(y - Wrap(y / 400 * 400));
    Wrap(Wrap(Wrap(Wrap(yoe * 365) + yoe / 4) - yoe / 100) + doy)
  }

  function DaysFromCivil(year: nat, month: nat, day: nat): nat {
    var y := if month <= 2 then Wrap(year - 1) else year;
    var doe := WrappedDayOfEra(y, WrappedDayOfYear(month, day));
    Wrap(Wrap(Wrap(y / 400 * 146_097) + doe) - 719_468)
  }

  /** Where a month starts in a year that begins in March. */
  function MonthStart(m: nat): nat {
    (153 * m + 2) / 5
  }

  /** Where a year starts in an era of 400 years. */
  function YearStart(yearOfEra: int): int {
    365 * yearOfEra + yearOfEra / 4 - yearOfEra / 100
  }

  function YearOf(dayOfEra: nat): int {
    (dayOfEra - dayOfEra / 1460 + dayOfEra / 36_524 - dayOfEra / 146_096) / 365
  }

  /** Year (of an era, before January is counted in), month and day of a day of a year that
      begins in March. */
  function CivilFromDayOfYear(year: int, doy: int): (int, int, int) {
    var mp := (5 * doy + 2) / 153;
    var d := doy - (153 * mp + 2) / 5 + 1;
    var m := if mp < 10 then mp + 3 else mp - 9;
    (if m <= 2 then year + 1 else year, m, d)
  }

  function CivilFromDayOfEra(era: nat, doe: nat): (int, int, int) {
    var yoe := YearOf(doe);
    CivilFromDayOfYear(yoe + era * 400, doe - YearStart(yoe))
  }

  function CivilFromDays(days: nat): (int, int, int) {
    var z := days + 719_468;
    CivilFromDayOfEra(z / 146_097, z % 146_097)
  }

  // ---------------------------------------------------------------------------
  // Years that begin in March
  // ---------------------------------------------------------------------------

  function MarchYear(date: Date): int {
    if date.month <= 2 then date.year - 1 else date.year
  }

  function MarchMonth(date: Date): int {
    if date.month > 2 then date.month - 3 else date.month + 9
  }

  /** Days since 0000-03-01, without wrapping. */
  function DaysSinceMarch0(date: Date): int
    requires date.year >= 1 && 1 <= date.month <= 12
  {
    var y := MarchYear(date);
    y / 400 * 146_097 + YearStart(y % 400) + MonthStart(MarchMonth(date)) + date.day - 1
  }

  /** A date from the epoch on whose day count fits 64 bits. */
  predicate IsCountable(date: Date) {
    IsDate(date) && date.year >= 1970 && DaysSinceMarch0(date) - 719_468 < TWO_TO_THE_64
  }

  lemma WrapSmall(x: int)
    requires 0 <= x < TWO_TO_THE_64
    ensures Wrap(x) == x
  {
  }

  lemma MonthStartBounds(m: nat)
    requires m <= 11
    ensures 0 <= MonthStart(m) <= 337
    ensures m >= 10 ==> MonthStart(m) >= 306
  {
  }

  lemma YearStartBounds(yearOfEra: nat)
    requires yearOfEra < 400
    ensures 0 <= YearStart(yearOfEra) <= 145_731
    ensures yearOfEra >= 369 ==> YearStart(yearOfEra) >= 134_774
    ensures yearOfEra >= 370 ==> YearStart(yearOfEra) >= 135_139
  {
  }

  lemma AfterEpoch(date: Date)
    requires IsDate(date) && date.year >= 1970
    ensures DaysSinceMarch0(date) >= 719_468
  {
    var y := MarchYear(date);
    YearStartBounds(y % 400);
    MonthStartBounds(MarchMonth(date));
    assert y == y / 400 * 400 + y % 400;
    assert y >= 1969 && (y == 1969 ==> MarchMonth(date) >= 10);
    assert y / 400 >= 5 || (y / 400 == 4 && y % 400 >= 369);
    assert y / 400 == 4 && y % 400 == 369 ==> y == 1969;
  }

  lemma DayOfYear(month: nat, day: nat)
    requires 1 <= month <= 12 && 1 <= day <= 31
    ensures WrappedDayOfYear(month, day) == MonthStart(if month > 2 then month - 3 else month + 9) + day - 1
  {
    var m := if month > 2 then month - 3 else month + 9;
    WrapSmall(m);
    WrapSmall(153 * m);
    WrapSmall(153 * m + 2);
    MonthStartBounds(m);
    WrapSmall(MonthStart(m) + day);
    WrapSmall(MonthStart(m) + day - 1);
  }

  lemma DayOfEra(y: nat, doy: nat)
    requires y <= U64_MAX && doy <= 367
    ensures WrappedDayOfEra(y, doy) == YearStart(y % 400) + doy
  {
    var yoe := y % 400;
    assert y == y / 400 * 400 + yoe;
    WrapSmall(y / 400 * 400);
    WrapSmall(yoe);
    YearStartBounds(yoe);
    WrapSmall(yoe * 365);
    WrapSmall(yoe * 365 + yoe / 4);
    WrapSmall(YearStart(yoe));
    WrapSmall(YearStart(yoe) + doy);
  }

  lemma WrapAdd(a: int, b: int)
    ensures Wrap(Wrap(a) + b) == Wrap(a + b)
  {
    var k := a / TWO_TO_THE_64;
    if 0 <= a < TWO_TO_THE_64 {
      assert Wrap(a) == a;
    } else {
      assert Wrap(a) + b == (a + b) - k * TWO_TO_THE_64;
    }
    WrapShift(a + b, if 0 <= a < TWO_TO_THE_64 then 0 else k);
  }

  lemma WrapShift(a: int, k: int)
    ensures Wrap(a - k * TWO_TO_THE_64) == Wrap(a)
  {
    assert Wrap(a) == a % TWO_TO_THE_64 && Wrap(a - k * TWO_TO_THE_64) == (a - k * TWO_TO_THE_64) % TWO_TO_THE_64;
    var q, r := a / TWO_TO_THE_64, a % TWO_TO_THE_64;
    assert a - k * TWO_TO_THE_64 == (q - k) * TWO_TO_THE_64 + r;
  }

  lemma EraWraps(eras: nat, doe: nat)
    requires 0 <= eras + doe - 719_468 < TWO_TO_THE_64
    ensures Wrap(Wrap(Wrap(eras) + doe) - 719_468) == eras + doe - 719_468
  {
    WrapAdd(eras, doe);
    WrapAdd(eras + doe, -719_468);
    WrapSmall(eras + doe - 719_468);
  }

  lemma WrappedSum(year: nat, month: nat, day: nat, y: nat, doy: nat)
    requires y <= U64_MAX && doy <= 367
    requires y == (if month <= 2 then year - 1 else year)
    requires WrappedDayOfYear(month, day) == doy
    requires 0 <= y / 400 * 146_097 + YearStart(y % 400) + doy - 719_468 < TWO_TO_THE_64
    ensures DaysFromCivil(year, month, day) == y / 400 * 146_097 + YearStart(y % 400) + doy - 719_468
  {
    DayOfEra(y, doy);
    YearStartBounds(y % 400);
    EraWraps(y / 400 * 146_097, YearStart(y % 400) + doy);
  }

  lemma YearBelowDays(date: Date)
    requires IsDate(date) && date.year >= 1
    ensures 365 * MarchYear(date) <= DaysSinceMarch0(date) <= 366 * MarchYear(date) + 366
  {
    var y := MarchYear(date);
    assert y == y / 400 * 400 + y % 400;
    MonthStartBounds(MarchMonth(date));
    assert 365 * (y % 400) <= YearStart(y % 400) <= 366 * (y % 400);
    assert 365 * (y / 400 * 400) <= y / 400 * 146_097 <= 366 * (y / 400 * 400);
    DayFitsYear(date);
  }

  /** For dates from the epoch on, the 64-bit arithmetic gives the true count. */
  lemma NothingWraps(date: Date)
    requires IsCountable(date)
    ensures DaysFromCivil(date.year, date.month, date.day) == DaysSinceMarch0(date) - 719_468
    ensures DaysSinceMarch0(date) >= 719_468
  {
    AfterEpoch(date);
    DayOfYear(date.month, date.day);
    MonthStartBounds(MarchMonth(date));
    YearBelowDays(date);
    WrappedSum(date.year, date.month, date.day, MarchYear(date), MonthStart(MarchMonth(date)) + date.day - 1);
  }

  // ---------------------------------------------------------------------------
  // One day on
  // ---------------------------------------------------------------------------

  lemma MonthLengths(m: nat)
    requires m <= 10
    ensures MonthStart(m + 1) - MonthStart(m) == DaysInMonth(1, if m < 10 then m + 3 else m - 9)
  {
  }

  lemma YearStartStep(r: nat)
    requires r < 399
    ensures YearStart(r + 1) - YearStart(r) == if IsLeap(r + 1) then 366 else 365
  {
    assert (r + 1) / 4 - r / 4 == if (r + 1) % 4 == 0 then 1 else 0;
    assert (r + 1) / 100 - r / 100 == if (r + 1) % 100 == 0 then 1 else 0;
    assert (r + 1) % 100 == 0 ==> (r + 1) % 4 == 0;
    assert (r + 1) % 400 != 0;
  }

  /** The length of a year that begins in March: the next February decides. */
  lemma YearLength(y: nat)
    ensures (y + 1) / 400 * 146_097 + YearStart((y + 1) % 400) - (y / 400 * 146_097 + YearStart(y % 400))
         == if IsLeap(y + 1) then 366 else 365
  {
    var e, r := y / 400, y % 400;
    LeapOfEra(e, r + 1);
    assert y + 1 == e * 400 + (r + 1);
    if r < 399 {
      YearStartStep(r);
      assert (y + 1) / 400 == e && (y + 1) % 400 == r + 1;
    } else {
      assert (y + 1) / 400 == e + 1 && (y + 1) % 400 == 0;
      assert IsLeap(400) && YearStart(399) == 145_731 && YearStart(0) == 0;
    }
  }

  lemma RemainderShifts4(q: nat, r: nat)
    ensures (4 * q + r) % 4 == r % 4
  {
  }

  lemma RemainderShifts100(q: nat, r: nat)
    ensures (100 * q + r) % 100 == r % 100
  {
  }

  lemma RemainderShifts400(q: nat, r: nat)
    ensures (400 * q + r) % 400 == r % 400
  {
  }

  lemma LeapOfEra(e: nat, r: nat)
    ensures IsLeap(e * 400 + r) <==> IsLeap(r)
  {
    RemainderShifts4(100 * e, r);
    RemainderShifts100(4 * e, r);
    RemainderShifts400(e, r);
  }

  /** From a February's last day the next day starts a year. */
  lemma AfterFebruary(year: nat, day: nat)
    requires year >= 1 && day == DaysInMonth(year, 2)
    ensures DaysSinceMarch0(Date(year, 3, 1)) == DaysSinceMarch0(Date(year, 2, day)) + 1
  {
    YearLength(year - 1);
    assert MonthStart(11) == 337 && MonthStart(0) == 0;
  }

  lemma AfterOtherMonth(date: Date)
    requires IsDate(date) && date.year >= 1 && date.month != 2 && date.day == DaysInMonth(date.year, date.month)
    ensures DaysSinceMarch0(NextDay(date)) == DaysSinceMarch0(date) + 1
  {
    MonthLengths(MarchMonth(date));
    assert MarchYear(NextDay(date)) == MarchYear(date) && MarchMonth(NextDay(date)) == MarchMonth(date) + 1;
  }

  /** The next day is one more: across months, leap days, centuries and eras. */
  lemma NextDayCounts(date: Date)
    requires IsDate(date) && date.year >= 1
    ensures DaysSinceMarch0(NextDay(date)) == DaysSinceMarch0(date) + 1
  {
    if date.day == DaysInMonth(date.year, date.month) {
      if date.month == 2 {
        AfterFebruary(date.year, date.day);
      } else {
        AfterOtherMonth(date);
      }
    }
  }

  /** The algorithm counts days: after n days from the epoch it says n. */
  lemma {:induction false} CountsDays(days: nat)
    ensures IsDate(DateAfter(days)) && DateAfter(days).year >= 1970
    ensures DaysSinceMarch0(DateAfter(days)) - 719_468 == days
  {
    DateAfterIsDate(days);
    if days == 0 {
      assert DaysSinceMarch0(EPOCH) == 719_468;
    } else {
      CountsDays(days - 1);
      NextDayCounts(DateAfter(days - 1));
    }
  }

  // ---------------------------------------------------------------------------
  // And back
  // ---------------------------------------------------------------------------

  function MarchYearLength(y: nat): nat {
    if IsLeap(y + 1) then 366 else 365
  }

  /** A year of an era by its century, leap cycle and year: only the last year of a cycle is
      long, and of the centuries' last cycles only the era's. */
  lemma YearByCycles(yearOfEra: nat, c: nat, q: nat, r: nat)
    requires c <= 3 && q <= 24 && r <= 3 && yearOfEra == 100 * c + 4 * q + r
    ensures YearStart(yearOfEra) == 36_500 * c + 1460 * q + 365 * r + 24 * c + q
    ensures MarchYearLength(yearOfEra) == 366 <==> r == 3 && (q < 24 || c == 3)
  {
    assert yearOfEra / 4 == 25 * c + q && yearOfEra / 100 == c;
    assert (yearOfEra + 1) % 4 == 0 <==> r == 3;
    assert (yearOfEra + 1) % 100 == 0 <==> q == 24 && r == 3;
    assert yearOfEra + 1 == 400 <==> c == 3 && q == 24 && r == 3;
  }

  lemma CyclesGoneBy(c: nat, rest: nat)
    requires c <= 3 && rest <= 36_524 && (rest == 36_524 ==> c == 3)
    ensures (36_524 * c + rest) / 36_524 - (36_524 * c + rest) / 146_096 == c
  {
  }

  lemma YearByQuotients(c: nat, q: nat, r: nat, doy: nat)
    requires c <= 3 && q <= 24 && r <= 3
    requires doy <= (if r == 3 && (q < 24 || c == 3) then 365 else 364)
    ensures YearOf(36_500 * c + 1460 * q + 365 * r + 24 * c + q + doy) == 100 * c + 4 * q + r
  {
    var doe := 36_500 * c + 1460 * q + 365 * r + 24 * c + q + doy;
    var rest := 24 * c + q + 365 * r + doy;
    var extra := if rest >= 1460 then 1 else 0;
    assert doe == 1460 * (25 * c + q) + rest;
    assert doe / 1460 == 25 * c + q + extra;
    CyclesGoneBy(c, 1461 * q + 365 * r + doy);
    assert doe - doe / 1460 + c == 365 * (100 * c + 4 * q + r) + (doy - extra);
    assert 0 <= doy - extra <= 364;
  }

  lemma YearOfInverts(yearOfEra: nat, doy: nat)
    requires yearOfEra < 400 && doy < MarchYearLength(yearOfEra)
    ensures YearOf(YearStart(yearOfEra) + doy) == yearOfEra
    ensures 0 <= YearStart(yearOfEra) + doy < 146_097
  {
    var c, q, r := yearOfEra / 100, yearOfEra % 100 / 4, yearOfEra % 4;
    assert yearOfEra == 100 * c + 4 * q + r;
    YearByCycles(yearOfEra, c, q, r);
    YearByQuotients(c, q, r, doy);
  }

  lemma MonthInverts(m: nat, day: nat)
    requires m <= 11 && 1 <= day && (m < 11 ==> day <= MonthStart(m + 1) - MonthStart(m)) && (m == 11 ==> day <= 29)
    ensures (5 * (MonthStart(m) + day - 1) + 2) / 153 == m
  {
  }

  /** The day of a year that begins in March, and that it fits the year. */
  lemma DayFitsYear(date: Date)
    requires IsDate(date) && date.year >= 1
    ensures var m := MarchMonth(date);
            && 0 <= m <= 11
            && (m < 11 ==> date.day <= MonthStart(m + 1) - MonthStart(m)) && (m == 11 ==> date.day <= 29)
            && 0 <= MonthStart(m) + date.day - 1 < MarchYearLength(MarchYear(date))
  {
    if MarchMonth(date) < 11 {
      MonthLengths(MarchMonth(date));
    }
    MonthStartBounds(MarchMonth(date));
  }

  lemma EraOf(era: nat, doe: nat)
    requires doe < 146_097
    ensures (era * 146_097 + doe) / 146_097 == era && (era * 146_097 + doe) % 146_097 == doe
  {
  }

  lemma DayOfYearInverts(year: int, m: nat, day: nat)
    requires m <= 11 && 1 <= day
    requires (m < 11 ==> day <= MonthStart(m + 1) - MonthStart(m)) && (m == 11 ==> day <= 29)
    ensures CivilFromDayOfYear(year, MonthStart(m) + day - 1)
         == (year + (if m >= 10 then 1 else 0), if m < 10 then m + 3 else m - 9, day)
  {
    MonthInverts(m, day);
  }

  lemma CivilFromEraDay(days: nat, era: nat, doe: nat)
    requires doe < 146_097 && days + 719_468 == era * 146_097 + doe
    ensures CivilFromDays(days) == CivilFromDayOfEra(era, doe)
  {
    EraOf(era, doe);
  }

  lemma CivilByParts(era: nat, yearOfEra: nat, m: nat, day: nat, days: nat, doe: nat)
    requires m <= 11 && 1 <= day
    requires (m < 11 ==> day <= MonthStart(m + 1) - MonthStart(m)) && (m == 11 ==> day <= 29)
    requires doe < 146_097 && days + 719_468 == era * 146_097 + doe
    requires YearOf(doe) == yearOfEra && doe - YearStart(yearOfEra) == MonthStart(m) + day - 1
    ensures CivilFromDays(days)
         == (era * 400 + yearOfEra + (if m >= 10 then 1 else 0), if m < 10 then m + 3 else m - 9, day)
  {
    CivilFromEraDay(days, era, doe);
    DayOfYearInverts(yearOfEra + era * 400, m, day);
  }

  lemma CivilFromParts(era: nat, yearOfEra: nat, m: nat, day: nat, days: nat)
    requires yearOfEra < 400 && m <= 11 && 1 <= day
    requires (m < 11 ==> day <= MonthStart(m + 1) - MonthStart(m)) && (m == 11 ==> day <= 29)
    requires MonthStart(m) + day - 1 < MarchYearLength(yearOfEra)
    requires days + 719_468 == era * 146_097 + YearStart(yearOfEra) + MonthStart(m) + day - 1
    ensures CivilFromDays(days)
         == (era * 400 + yearOfEra + (if m >= 10 then 1 else 0), if m < 10 then m + 3 else m - 9, day)
  {
    var doe := YearStart(yearOfEra) + (MonthStart(m) + day - 1);
    YearOfInverts(yearOfEra, MonthStart(m) + day - 1);
    CivilByParts(era, yearOfEra, m, day, days, doe);
  }

  /** Converting a date to days and back gives the date. */
  lemma CivilInverts(date: Date, days: nat)
    requires IsDate(date) && date.year >= 1 && days == DaysSinceMarch0(date) - 719_468
    ensures CivilFromDays(days) == (date.year, date.month, date.day)
  {
    var y := MarchYear(date);
    DayFitsYear(date);
    assert y == y / 400 * 400 + y % 400;
    LeapOfEra(y / 400, y % 400 + 1);
    CivilFromParts(y / 400, y % 400, MarchMonth(date), date.day, days);
  }

  /** The inverse counts days too. */
  lemma CivilIsDateAfter(days: nat)
    ensures var date := DateAfter(days); CivilFromDays(days) == (date.year, date.month, date.day)
  {
    CountsDays(days);
    CivilInverts(DateAfter(days), days);
  }

  /** For every date from the epoch on, the algorithm gives the number of days to count from
      the epoch to reach it. */
  lemma DaysFromCivilCounts(date: Date)
    requires IsCountable(date)
    ensures DateAfter(DaysFromCivil(date.year, date.month, date.day)) == date
  {
    NothingWraps(date);
    var days := DaysFromCivil(date.year, date.month, date.day);
    CivilInverts(date, days);
    CivilIsDateAfter(days);
  }

  lemma DaysFromCivilOfDateAfter(days: nat)
    requires days < TWO_TO_THE_64
    ensures DaysFromCivil(DateAfter(days).year, DateAfter(days).month, DateAfter(days).day) == days
  {
    DateAfterIsDate(days);
    CountsDays(days);
    NothingWraps(DateAfter(days));
  }

  /** Dates order as their days do. */
  lemma DaysKeepOrder(left: Date, right: Date)
    requires IsCountable(left) && IsCountable(right)
    ensures DateBefore(left, right)
       <==> DaysFromCivil(left.year, left.month, left.day) < DaysFromCivil(right.year, right.month, right.day)
  {
    DaysFromCivilCounts(left);
    DaysFromCivilCounts(right);
    CountedOrder(DaysFromCivil(left.year, left.month, left.day), DaysFromCivil(right.year, right.month, right.day));
  }

  lemma CountedOrder(l: nat, r: nat)
    ensures DateBefore(DateAfter(l), DateAfter(r)) <==> l < r
  {
    if l < r {
      LaterDaysAreLater(l, r);
    } else if r < l {
      LaterDaysAreLater(r, l);
    }
  }
}

/**
 * The two closed-form calendars of the worktree pool (lease stamps and telemetry stamps)
 * and the day-by-day calendar they stand for. Every `/` and `%` below has a positive divisor,
 * so Dafny's Euclidean operators are the source's `div_euclid` and `rem_euclid`.
 */
module Calendar {
  datatype Civil = Civil(year: int, month: int, day: int)

  predicate IsLeap(year: int) {
    (year % 4 == 0 && year % 100 != 0) || year % 400 == 0
  }

  function DaysInMonth(year: int, month: int): int {
    if month in {1, 3, 5, 7, 8, 10, 12} then 31
    else if month in {4, 6, 9, 11} then 30
    else if month == 2 then (if IsLeap(year) then 29 else 28)
    else 0
  }

  predicate ValidCivil(c: Civil) {
    1 <= c.month <= 12 && 1 <= c.day <= DaysInMonth(c.year, c.month)
  }

  // ---- the closed forms -----------------------------------------------------------------

  /** Days since 1970-01-01 of a civil date. */
  function DaysFromCivil(c: Civil): int {
    var y := if c.month <= 2 then c.year - 1 else c.year;
    var era := y / 400;
    var yoe := y - era * 400;
    var doy := (153 * (if c.month > 2 then c.month - 3 else c.month + 9) + 2) / 5 + c.day - 1;
    var doe := yoe * 365 + yoe / 4 - yoe / 100 + doy;
    era * 146097 + doe - 719468
  }

  /** The lines both inverses share, from the shifted day number and its era on. */
  function CivilInEra(z: int, era: int): Civil {
    var doe := z - era * 146097;
    var yoe := (doe - doe / 1460 + doe / 36524 - doe / 146096) / 365;
    var y := yoe + era * 400;
    var doy := doe - (365 * yoe + yoe / 4 - yoe / 100);
    var mp := (5 * doy + 2) / 153;
    var day := doy - (153 * mp + 2) / 5 + 1;
    var month := if mp < 10 then mp + 3 else mp - 9;
    Civil(if month <= 2 then y + 1 else y, month, day)
  }

  /** The lease module's inverse. */
  function CivilFromDays(days: int): Civil {
    var z := days + 719468;
    CivilInEra(z, z / 146097)
  }

  /** Rust's `/` on signed integers: rounds toward zero. */
  function TruncDiv(a: int, b: int): int
    requires b > 0
  {
    if a >= 0 then a / b else -((-a) / b)
  }

  /** The telemetry module's inverse, with its own way of flooring the era. */
  function DaysToYmd(days: int): Civil {
    var z := days + 719468;
    CivilInEra(z, TruncDiv(if z >= 0 then z else z - 146096, 146097))
  }

  // ---- one 400-year era, counted from 1 March ------------------------------------------

  /** Days from the start of the era to 1 March of its year `yoe`. */
  function YearStart(yoe: int): int {
    365 * yoe + yoe / 4 - yoe / 100
  }

  /** Length of the year that starts on 1 March of `yoe`: it ends with February of `yoe + 1`. */
  function MarchYearLength(yoe: int): int {
    if IsLeap(yoe + 1) then 366 else 365
  }

  function YearOfEra(doe: int): int {
    (doe - doe / 1460 + doe / 36524 - doe / 146096) / 365
  }

  /** The year formula with the year split as 100c + 4q + r, where its corrections are visible. */
  lemma YearFormula(c: int, q: int, r: int, doy: int)
    requires 0 <= c <= 3 && 0 <= q <= 24 && 0 <= r <= 3
    requires 0 <= doy <= 365 && (doy == 365 ==> r == 3 && (q < 24 || c == 3))
    ensures YearOfEra(36524 * c + 1461 * q + 365 * r + doy) == 100 * c + 4 * q + r
  {
    var doe := 36524 * c + 1461 * q + 365 * r + doy;
    var late := 24 * c + q + 365 * r + doy; // what is left after 25c + q blocks of 1460 days
    var delta := if late >= 1460 then 1 else 0;
    assert doe == 1460 * (25 * c + q) + late && 0 <= late < 2920;
    assert doe / 1460 == 25 * c + q + delta;
    var last := if doe == 146096 then 1 else 0;
    assert doe <= 146096;
    assert doe / 146096 == last;
    assert doe / 36524 == c + last by {
      if last == 0 {
        assert 0 <= doe - 36524 * c < 36524;
      }
    }
    assert doe - doe / 1460 + doe / 36524 - doe / 146096 == 365 * (100 * c + 4 * q + r) + doy - delta;
    assert 0 <= doy - delta <= 364;
  }

  lemma SplitYear(yoe: int) returns (c: int, q: int, r: int)
    requires 0 <= yoe <= 399
    ensures 0 <= c <= 3 && 0 <= q <= 24 && 0 <= r <= 3 && yoe == 100 * c + 4 * q + r
    ensures YearStart(yoe) == 36524 * c + 1461 * q + 365 * r
    ensures IsLeap(yoe + 1) <==> r == 3 && (q < 24 || c == 3)
  {
    c := yoe / 100;
    q := yoe % 100 / 4;
    r := yoe % 4;
    assert yoe % 100 == 4 * q + r;
    assert yoe / 4 == 25 * c + q;
    if r == 3 {
      assert (yoe + 1) % 4 == 0;
      if q < 24 {
        assert (yoe + 1) % 100 == 4 * q + 4;
      } else {
        assert yoe + 1 == 100 * (c + 1);
      }
    } else {
      assert (yoe + 1) % 4 == r + 1;
    }
  }

  lemma YearOfEraInverts(yoe: int, doy: int)
    requires 0 <= yoe <= 399 && 0 <= doy < MarchYearLength(yoe)
    ensures YearOfEra(YearStart(yoe) + doy) == yoe && 0 <= YearStart(yoe) + doy <= 146096
  {
    var c, q, r := SplitYear(yoe);
    YearFormula(c, q, r, doy);
  }

  lemma YearOfEraExists(doe: int)
    requires 0 <= doe <= 146096
    ensures 0 <= YearOfEra(doe) <= 399
    ensures 0 <= doe - YearStart(YearOfEra(doe)) < MarchYearLength(YearOfEra(doe))
  {
    var c := if doe / 36524 == 4 then 3 else doe / 36524;
    var inCentury := doe - 36524 * c;
    var q := inCentury / 1461;
    var inCycle := inCentury - 1461 * q;
    var r := if inCycle == 1460 then 3 else inCycle / 365;
    var doy := inCycle - 365 * r;
    assert 0 <= inCentury <= 36524 && (inCentury == 36524 ==> c == 3);
    assert 0 <= q <= 24 && 0 <= inCycle <= 1460 && 0 <= r <= 3 && 0 <= doy <= 365;
    YearFormula(c, q, r, doy);
    var c', q', r' := SplitYear(YearOfEra(doe));
    assert c' == c && q' == q && r' == r;
  }

  // ---- dates counted from 1 March -------------------------------------------------------

  /** The decomposition behind both closed forms: era, year of era, month from March, day. */
  datatype March = March(era: int, yoe: int, mp: int, day: int)

  function MonthStart(mp: int): int {
    (153 * mp + 2) / 5
  }

  function MarchMonthLength(yoe: int, mp: int): int {
    if mp == 11 then MarchYearLength(yoe) - 337 else MonthStart(mp + 1) - MonthStart(mp)
  }

  predicate ValidMarch(m: March) {
    0 <= m.yoe <= 399 && 0 <= m.mp <= 11 && 1 <= m.day <= MarchMonthLength(m.yoe, m.mp)
  }

  function ToMarch(c: Civil): March {
    var y := if c.month <= 2 then c.year - 1 else c.year;
    March(y / 400, y - y / 400 * 400, if c.month > 2 then c.month - 3 else c.month + 9, c.day)
  }

  function FromMarch(m: March): Civil {
    var y := m.yoe + m.era * 400;
    var month := if m.mp < 10 then m.mp + 3 else m.mp - 9;
    Civil(if month <= 2 then y + 1 else y, month, m.day)
  }

  function DayOfYear(m: March): int {
    MonthStart(m.mp) + m.day - 1
  }

  lemma DivBy400(y: int, era: int)
    requires 400 * era <= y < 400 * era + 400
    ensures y / 400 == era
  {
  }

  lemma Mod4(x: int, q: int, r: int)
    requires x == 4 * q + r && 0 <= r < 4
    ensures x % 4 == r
  {
  }

  lemma Mod100(x: int, q: int, r: int)
    requires x == 100 * q + r && 0 <= r < 100
    ensures x % 100 == r
  {
  }

  lemma Mod400(x: int, q: int, r: int)
    requires x == 400 * q + r && 0 <= r < 400
    ensures x % 400 == r
  {
  }

  lemma LeapRepeats(y: int, era: int)
    ensures IsLeap(y + 400 * era) == IsLeap(y)
  {
    Mod4(y + 400 * era, y / 4 + 100 * era, y % 4);
    Mod100(y + 400 * era, y / 100 + 4 * era, y % 100);
    Mod400(y + 400 * era, y / 400 + era, y % 400);
  }

  lemma MonthLengths(year: int, month: int, yoe: int)
    requires 1 <= month <= 12 && (month == 2 ==> IsLeap(year) == IsLeap(yoe + 1))
    ensures DaysInMonth(year, month) == MarchMonthLength(yoe, if month > 2 then month - 3 else month + 9)
  {
    hide IsLeap;
  }

  lemma ToMarchInverts(c: Civil)
    requires ValidCivil(c)
    ensures ValidMarch(ToMarch(c)) && FromMarch(ToMarch(c)) == c
  {
    hide IsLeap, DaysInMonth, MonthStart, MarchMonthLength;
    var m := ToMarch(c);
    LeapRepeats(m.yoe + 1, m.era);
    assert c.month == 2 ==> m.yoe + 1 + 400 * m.era == c.year;
    MonthLengths(c.year, c.month, m.yoe);
  }

  lemma FromMarchInverts(m: March)
    requires ValidMarch(m)
    ensures ValidCivil(FromMarch(m)) && ToMarch(FromMarch(m)) == m
  {
    hide IsLeap, DaysInMonth, MonthStart, MarchMonthLength;
    var c := FromMarch(m);
    LeapRepeats(m.yoe + 1, m.era);
    assert c.month == 2 ==> m.yoe + 1 + 400 * m.era == c.year;
    MonthLengths(c.year, c.month, m.yoe);
    DivBy400(m.yoe + m.era * 400, m.era);
  }

  /** The day number a March date stands for. */
  function MarchDays(m: March): int {
    m.era * 146097 + YearStart(m.yoe) + DayOfYear(m) - 719468
  }

  lemma DaysFromCivilIsMarchDays(c: Civil)
    ensures DaysFromCivil(c) == MarchDays(ToMarch(c))
  {
  }

  lemma DayOfYearBounds(m: March)
    requires ValidMarch(m)
    ensures 0 <= DayOfYear(m) < MarchYearLength(m.yoe) && (5 * DayOfYear(m) + 2) / 153 == m.mp
  {
    hide IsLeap;
    var doy := DayOfYear(m);
    assert 153 * m.mp <= 5 * doy + 2;
    assert m.mp < 11 ==> doy < MonthStart(m.mp + 1) <= 337;
    assert 5 * doy + 2 < 153 * (m.mp + 1);
  }

  lemma CivilFromMarchDays(m: March)
    requires ValidMarch(m)
    ensures CivilFromDays(MarchDays(m)) == FromMarch(m)
  {
    hide IsLeap, MonthStart, MarchMonthLength, MarchYearLength, YearStart, DayOfYear;
    hide CivilFromDays, YearOfEra, FromMarch;
    DayOfYearBounds(m);
    YearOfEraInverts(m.yoe, DayOfYear(m));
    var doe := YearStart(m.yoe) + DayOfYear(m);
    DivByEra(m.era, doe);
    ClosedFormReads(m.era, doe, m.yoe, DayOfYear(m), m.mp);
    MonthStartIs(m);
  }

  lemma MonthStartIs(m: March)
    ensures m.day == DayOfYear(m) - (153 * m.mp + 2) / 5 + 1
  {
  }

  lemma DivByEra(era: int, doe: int)
    requires 0 <= doe <= 146096
    ensures (era * 146097 + doe) / 146097 == era
  {
  }

  /** The closed form, read off from an already split day number. */
  lemma ClosedFormReads(era: int, doe: int, yoe: int, doy: int, mp: int)
    requires (era * 146097 + doe) / 146097 == era
    requires YearOfEra(doe) == yoe && doe == YearStart(yoe) + doy && (5 * doy + 2) / 153 == mp
    ensures CivilFromDays(era * 146097 + doe - 719468) == FromMarch(March(era, yoe, mp, doy - (153 * mp + 2) / 5 + 1))
  {
    var z := era * 146097 + doe;
    assert z - era * 146097 == doe;
  }

  /** Every day number is the number of some March date. */
  lemma MarchDateOf(days: int) returns (m: March)
    ensures ValidMarch(m) && MarchDays(m) == days
  {
    hide IsLeap, MonthStart, MarchMonthLength, MarchYearLength, YearStart, YearOfEra;
    var era := (days + 719468) / 146097;
    var doe := days + 719468 - era * 146097;
    YearOfEraExists(doe);
    var yoe := YearOfEra(doe);
    var doy := doe - YearStart(yoe);
    var mp := (5 * doy + 2) / 153;
    m := March(era, yoe, mp, doy - MonthStart(mp) + 1);
    MonthOfDay(yoe, doy);
  }

  lemma MonthOfDay(yoe: int, doy: int)
    requires 0 <= doy < MarchYearLength(yoe)
    ensures var mp := (5 * doy + 2) / 153;
      0 <= mp <= 11 && 1 <= doy - MonthStart(mp) + 1 <= MarchMonthLength(yoe, mp)
  {
    hide IsLeap;
    var mp := (5 * doy + 2) / 153;
    assert MarchYearLength(yoe) <= 366;
    assert 153 * mp <= 5 * doy + 2 < 153 * (mp + 1);
    assert mp == 11 ==> MonthStart(mp) == 337;
  }

  // ---- the closed forms are mutually inverse --------------------------------------------

  lemma CivilRoundTrip(c: Civil)
    requires ValidCivil(c)
    ensures CivilFromDays(DaysFromCivil(c)) == c
  {
    hide *;
    ToMarchInverts(c);
    DaysFromCivilIsMarchDays(c);
    CivilFromMarchDays(ToMarch(c));
  }

  lemma DaysRoundTrip(days: int)
    ensures ValidCivil(CivilFromDays(days)) && DaysFromCivil(CivilFromDays(days)) == days
  {
    hide *;
    var m := MarchDateOf(days);
    CivilFromMarchDays(m);
    FromMarchInverts(m);
    DaysFromCivilIsMarchDays(FromMarch(m));
  }

  lemma TruncatedEra(z: int)
    ensures TruncDiv(if z >= 0 then z else z - 146096, 146097) == z / 146097
  {
    var e := z / 146097;
    assert e * 146097 <= z < (e + 1) * 146097;
    if z < 0 {
      assert (146096 - z) / 146097 == -e;
    }
  }

  lemma CalendarsAgree(days: int)
    ensures DaysToYmd(days) == CivilFromDays(days)
  {
    hide TruncDiv, CivilInEra;
    TruncatedEra(days + 719468);
  }

  // ---- the closed forms are plain day counting ------------------------------------------

  function NextDay(c: Civil): Civil {
    if c.day < DaysInMonth(c.year, c.month) then Civil(c.year, c.month, c.day + 1)
    else if c.month < 12 then Civil(c.year, c.month + 1, 1)
    else Civil(c.year + 1, 1, 1)
  }

  /** The date reached from 1970-01-01 by stepping one day at a time, `n` times. */
  function CountForward(n: nat): Civil {
    if n == 0 then Civil(1970, 1, 1) else NextDay(CountForward(n - 1))
  }

  function NextMarchDay(m: March): March {
    if m.day < MarchMonthLength(m.yoe, m.mp) then m.(day := m.day + 1)
    else if m.mp < 11 then m.(mp := m.mp + 1, day := 1)
    else if m.yoe < 399 then March(m.era, m.yoe + 1, 0, 1)
    else March(m.era + 1, 0, 0, 1)
  }

  lemma NewMarchYear(yoe: int)
    requires 0 <= yoe <= 399
    ensures yoe < 399 ==> YearStart(yoe + 1) == YearStart(yoe) + MarchYearLength(yoe)
    ensures yoe == 399 ==> YearStart(yoe) + MarchYearLength(yoe) == 146097
  {
    var c, q, r := SplitYear(yoe);
    if yoe < 399 {
      hide YearStart, IsLeap;
      var c', q', r' := SplitYear(yoe + 1);
    }
  }

  lemma NextMarchDayAddsOne(m: March)
    requires ValidMarch(m)
    ensures ValidMarch(NextMarchDay(m)) && MarchDays(NextMarchDay(m)) == MarchDays(m) + 1
  {
    hide YearStart, IsLeap;
    if m.day == MarchMonthLength(m.yoe, m.mp) && m.mp == 11 {
      NewMarchYear(m.yoe);
      FirstYearStart();
    }
  }

  lemma FirstYearStart()
    ensures YearStart(0) == 0 && MonthStart(0) == 0
  {
  }

  lemma NextDayIsNextMarchDay(m: March)
    requires ValidMarch(m)
    ensures NextDay(FromMarch(m)) == FromMarch(NextMarchDay(m))
  {
    hide IsLeap, DaysInMonth, MonthStart, MarchMonthLength;
    var c := FromMarch(m);
    LeapRepeats(m.yoe + 1, m.era);
    assert c.month == 2 ==> m.yoe + 1 + 400 * m.era == c.year;
    MonthLengths(c.year, c.month, m.yoe);
  }

  /** For every day number, before or after the epoch: one step by leap years and month lengths is one day. */
  lemma ClosedFormsStep(days: int)
    ensures CivilFromDays(days + 1) == NextDay(CivilFromDays(days))
  {
    hide *;
    var m := MarchDateOf(days);
    CivilFromMarchDays(m);
    NextMarchDayAddsOne(m);
    CivilFromMarchDays(NextMarchDay(m));
    NextDayIsNextMarchDay(m);
  }

  lemma NextDayAddsOne(c: Civil)
    requires ValidCivil(c)
    ensures ValidCivil(NextDay(c)) && DaysFromCivil(NextDay(c)) == DaysFromCivil(c) + 1
  {
    hide *;
    CivilRoundTrip(c);
    ClosedFormsStep(DaysFromCivil(c));
    DaysRoundTrip(DaysFromCivil(c) + 1);
  }

  lemma {:induction false} ClosedFormsCount(n: nat)
    ensures CivilFromDays(n) == CountForward(n) == DaysToYmd(n)
  {
    hide CivilFromDays, DaysToYmd, NextDay;
    CalendarsAgree(n);
    if n == 0 {
      EpochDay();
    } else {
      ClosedFormsCount(n - 1);
      ClosedFormsStep(n - 1);
    }
  }

  lemma EpochDay()
    ensures CivilFromDays(0) == Civil(1970, 1, 1)
  {
    hide CivilFromDays;
    CivilFromMarchDays(March(4, 369, 10, 1));
  }

  // ---- order ----------------------------------------------------------------------------

  predicate Earlier(a: Civil, b: Civil) {
    a.year < b.year || (a.year == b.year && (a.month < b.month || (a.month == b.month && a.day < b.day)))
  }

  lemma TomorrowIsLater(c: Civil)
    requires ValidCivil(c)
    ensures Earlier(c, NextDay(c))
  {
    hide DaysInMonth;
  }

  lemma {:induction false} LaterDayLaterDate(m: int, n: int)
    requires m < n
    ensures Earlier(CivilFromDays(m), CivilFromDays(n))
    decreases n - m
  {
    hide CivilFromDays, NextDay, ValidCivil;
    DaysRoundTrip(n - 1);
    ClosedFormsStep(n - 1);
    TomorrowIsLater(CivilFromDays(n - 1));
    if m < n - 1 {
      LaterDayLaterDate(m, n - 1);
    }
  }

  lemma DayOrderIsCivilOrder(a: Civil, b: Civil)
    requires ValidCivil(a) && ValidCivil(b)
    ensures DaysFromCivil(a) < DaysFromCivil(b) <==> Earlier(a, b)
  {
    hide CivilFromDays, DaysFromCivil;
    CivilRoundTrip(a);
    CivilRoundTrip(b);
    if DaysFromCivil(a) < DaysFromCivil(b) {
      LaterDayLaterDate(DaysFromCivil(a), DaysFromCivil(b));
    } else if DaysFromCivil(b) < DaysFromCivil(a) {
      LaterDayLaterDate(DaysFromCivil(b), DaysFromCivil(a));
    }
  }
}

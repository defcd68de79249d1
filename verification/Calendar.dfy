/**
  Three independent conversions from a Unix time to a Gregorian date: two closed forms (one with
  64-bit years, one with 32-bit years) and one that counts years and months in loops.
 */
module Calendar {
  import opened Prelude

  datatype Date = Date(year: int, month: int, day: int)

  datatype Stamp = Stamp(date: Date, hour: int, minute: int, second: int)

  // ---- The calendar itself ----

  predicate IsLeap(y: int) {
    (y % 4 == 0 && y % 100 != 0) || y % 400 == 0
  }

  function DaysInYear(y: int): int {
    if IsLeap(y) then 366 else 365
  }

  function DaysInMonth(y: int, m: int): int {
    if m == 2 then (if IsLeap(y) then 29 else 28)
    else if m in {4, 6, 9, 11} then 30
    else 31
  }

  predicate ValidDate(d: Date) {
    1 <= d.month <= 12 && 1 <= d.day <= DaysInMonth(d.year, d.month)
  }

  /** Days of the year before the first of a month; month 13 stands for the whole year. */
  function DaysBeforeMonth(y: int, m: int): int
    requires 1 <= m <= 13
    decreases m
  {
    if m == 1 then 0 else DaysBeforeMonth(y, m - 1) + DaysInMonth(y, m - 1)
  }

  /** Days from 1 January 1970 to 1 January of a year, counted year by year in either direction. */
  function YearStart(y: int): int
    decreases if y < 1970 then 1970 - y else y - 1970
  {
    if y == 1970 then 0
    else if y > 1970 then YearStart(y - 1) + DaysInYear(y - 1)
    else YearStart(y + 1) - DaysInYear(y)
  }

  /** The number of a day; day 0 is 1 January 1970. */
  function DayNumber(d: Date): int
    requires ValidDate(d)
  {
    YearStart(d.year) + DaysBeforeMonth(d.year, d.month) + d.day - 1
  }

  predicate Before(a: Date, b: Date) {
    || a.year < b.year
    || (a.year == b.year && a.month < b.month)
    || (a.year == b.year && a.month == b.month && a.day < b.day)
  }

  lemma YearStartStep(y: int)
    ensures YearStart(y + 1) == YearStart(y) + DaysInYear(y)
  {
  }

  /** Leap days in the years before y, up to a constant. */
  function LeapsBefore(y: int): int {
    (y - 1) / 4 - (y - 1) / 100 + (y - 1) / 400
  }

  lemma LeapsStep(y: int)
    ensures LeapsBefore(y + 1) == LeapsBefore(y) + if IsLeap(y) then 1 else 0
  {
    NextQuotient(y, 4);
    NextQuotient(y, 100);
    NextQuotient(y, 400);
    if y % 100 == 0 { DivMod(y, 4, 25 * (y / 100), 0); }
    if y % 400 == 0 { DivMod(y, 100, 4 * (y / 400), 0); }
  }

  lemma NextQuotient(y: int, m: int)
    requires m > 0
    ensures y / m == (y - 1) / m + if y % m == 0 then 1 else 0
  {
    var q, r := (y - 1) / m, (y - 1) % m;
    assert y - 1 == m * q + r;
    if r + 1 < m {
      DivMod(y, m, q, r + 1);
    } else {
      DivMod(y, m, q + 1, 0);
    }
  }

  lemma {:induction false} YearStartClosed(y: int)
    ensures YearStart(y) == 365 * (y - 1970) + LeapsBefore(y) - 477
    decreases if y < 1970 then 1970 - y else y - 1970
  {
    if y > 1970 {
      YearStartClosed(y - 1);
      LeapsStep(y - 1);
    } else if y < 1970 {
      YearStartClosed(y + 1);
      LeapsStep(y);
    }
  }

  lemma {:induction false} YearStartMonotone(y: int, z: int)
    requires y < z
    ensures YearStart(y) + DaysInYear(y) <= YearStart(z)
    decreases z - y
  {
    if z == y + 1 {
      YearStartStep(y);
    } else {
      YearStartMonotone(y, z - 1);
      YearStartStep(z - 1);
    }
  }

  lemma {:induction false} MonthsMonotone(y: int, m: int, n: int)
    requires 1 <= m < n <= 13
    ensures DaysBeforeMonth(y, m) + DaysInMonth(y, m) <= DaysBeforeMonth(y, n)
    decreases n
  {
    if n > m + 1 {
      MonthsMonotone(y, m, n - 1);
    }
  }

  lemma WholeYear(y: int)
    ensures DaysBeforeMonth(y, 13) == DaysInYear(y)
    ensures DaysBeforeMonth(y, 3) == 59 + if IsLeap(y) then 1 else 0
  {
    assert DaysBeforeMonth(y, 3) == 59 + if IsLeap(y) then 1 else 0;
    assert DaysBeforeMonth(y, 6) == DaysBeforeMonth(y, 3) + 92;
    assert DaysBeforeMonth(y, 9) == DaysBeforeMonth(y, 6) + 92;
    assert DaysBeforeMonth(y, 12) == DaysBeforeMonth(y, 9) + 91;
  }

  lemma WithinYear(d: Date)
    requires ValidDate(d)
    ensures 0 <= DaysBeforeMonth(d.year, d.month)
    ensures DaysBeforeMonth(d.year, d.month) + d.day <= DaysInYear(d.year)
  {
    MonthsMonotone(d.year, d.month, 13);
    WholeYear(d.year);
    if d.month > 1 {
      MonthsMonotone(d.year, 1, d.month);
    }
  }

  /** Numbering days keeps their order, so a number names at most one date. */
  lemma DayNumberOrder(a: Date, b: Date)
    requires ValidDate(a) && ValidDate(b)
    ensures Before(a, b) <==> DayNumber(a) < DayNumber(b)
    ensures a == b <==> DayNumber(a) == DayNumber(b)
  {
    if Before(a, b) {
      BeforeIsLess(a, b);
    } else if Before(b, a) {
      BeforeIsLess(b, a);
    }
  }

  lemma BeforeIsLess(a: Date, b: Date)
    requires ValidDate(a) && ValidDate(b) && Before(a, b)
    ensures DayNumber(a) < DayNumber(b)
  {
    if a.year < b.year {
      YearStartMonotone(a.year, b.year);
      WithinYear(a);
      WithinYear(b);
    } else if a.month < b.month {
      MonthsMonotone(a.year, a.month, b.month);
    }
  }

  // ---- The closed form with 64-bit years ----

  /** Division rounding toward zero. */
  function TruncDiv(a: int, b: int): int
    requires b > 0
  {
    if a >= 0 then a / b else -((-a) / b)
  }

  function Era(z: int): int {
    TruncDiv(if z >= 0 then z else z - 146096, 146097)
  }

  lemma EraIsFloor(z: int)
    ensures Era(z) == z / 146097
    ensures 0 <= z - Era(z) * 146097 < 146097
  {
    if z < 0 {
      var n := (146096 - z) / 146097;
      assert 146097 * n <= 146096 - z < 146097 * n + 146097;
      assert z == 146097 * (-n) + (z + 146097 * n);
      assert 0 <= z + 146097 * n < 146097;
    }
  }

  /** Year of the era, counted from March, of a day of the era. */
  function YearOfEra(doe: int): int {
    (doe - doe / 1460 + doe / 36524 - doe / 146096) / 365
  }

  /** Days of the era before a year that starts in March. */
  function DaysBeforeYearOfEra(yoe: int): int {
    365 * yoe + yoe / 4 - yoe / 100
  }

  /** Month and day of a day counted from 1 March; `carry` when they fall in the next calendar year. */
  datatype MonthDay = MonthDay(month: int, day: int, carry: bool)

  function FromMarch(doy: int): MonthDay {
    var mp := (5 * doy + 2) / 153;
    var d := doy - (153 * mp + 2) / 5 + 1;
    var m := if mp < 10 then mp + 3 else mp - 9;
    MonthDay(m, d, m <= 2)
  }

  function InYear(y: int, md: MonthDay): Date {
    Date(if md.carry then y + 1 else y, md.month, md.day)
  }

  /** Year counted from March and day in it. */
  function MarchYear(days: int): (int, int) {
    var z := days + 719468;
    FromEra(Era(z), z - Era(z) * 146097)
  }

  function FromEra(era: int, doe: int): (int, int) {
    var yoe := YearOfEra(doe);
    (yoe + era * 400, doe - DaysBeforeYearOfEra(yoe))
  }

  function DaysToYmd(days: int): Date {
    InYear(MarchYear(days).0, FromMarch(MarchYear(days).1))
  }

  /** A day of an era by century, four-year cycle, year and day: the shape behind the closed form. */
  datatype Split = Split(c: int, q: int, y: int, r: int)

  predicate ValidSplit(s: Split) {
    && 0 <= s.c <= 3 && 0 <= s.q <= 24 && 0 <= s.y <= 3 && 0 <= s.r <= 365
    && (s.r == 365 ==> s.y == 3 && (s.q < 24 || s.c == 3))
  }

  function DayOfEra(s: Split): int {
    36524 * s.c + 1461 * s.q + 365 * s.y + s.r
  }

  function SplitDay(doe: int): (s: Split)
    requires 0 <= doe < 146097
    ensures ValidSplit(s) && DayOfEra(s) == doe
  {
    var c := if doe == 146096 then 3 else doe / 36524;
    var doc := doe - 36524 * c;
    var q := doc / 1461;
    var doq := doc - 1461 * q;
    var y := if doq == 1460 then 3 else doq / 365;
    Split(c, q, y, doq - 365 * y)
  }

  lemma Quotients(s: Split)
    requires ValidSplit(s)
    ensures var doe := DayOfEra(s);
            && doe / 36524 - doe / 146096 == s.c
            && doe / 1460 == 25 * s.c + s.q + if 24 * s.c + s.q + 365 * s.y + s.r >= 1460 then 1 else 0
  {
    var doe := DayOfEra(s);
    var t := 24 * s.c + s.q + 365 * s.y + s.r;
    assert doe == 1460 * (25 * s.c + s.q) + t;
    assert 0 <= t < 2920;
    var over := if t >= 1460 then 1 else 0;
    DivMod(doe, 1460, 25 * s.c + s.q + over, t - 1460 * over);
    var low := doe - 36524 * s.c;
    assert 0 <= low <= 36524;
    if low == 36524 {
      assert s.c == 3;
    } else {
      DivMod(doe, 36524, s.c, low);
    }
  }

  lemma YearOfEraOfSplit(s: Split)
    requires ValidSplit(s)
    ensures var yoe := 100 * s.c + 4 * s.q + s.y;
            YearOfEra(DayOfEra(s)) == yoe && DaysBeforeYearOfEra(yoe) == DayOfEra(s) - s.r
  {
    Quotients(s);
    var doe := DayOfEra(s);
    var late := if 24 * s.c + s.q + 365 * s.y + s.r >= 1460 then 1 else 0;
    var yoe := 100 * s.c + 4 * s.q + s.y;
    assert doe - doe / 1460 + doe / 36524 - doe / 146096 == 365 * yoe + (s.r - late);
    assert 0 <= s.r - late < 365;
    assert yoe / 4 == 25 * s.c + s.q;
    assert yoe / 100 == s.c;
  }

  /** Days from 1 March to the first of the mp-th month after it. */
  function MonthOffset(mp: int): int {
    (153 * mp + 2) / 5
  }

  lemma MarchMonths(y: int, m: int)
    requires 3 <= m <= 12
    ensures DaysBeforeMonth(y, m) == DaysBeforeMonth(y, 3) + MonthOffset(m - 3)
  {
    if m > 3 {
      MarchMonths(y, m - 1);
      assert DaysInMonth(y, m - 1) == MonthOffset(m - 3) - MonthOffset(m - 4);
    }
  }

  lemma MonthOfDay(doy: int)
    requires 0 <= doy <= 365
    ensures var mp := (5 * doy + 2) / 153;
            && 0 <= mp <= 11 && MonthOffset(mp) <= doy
            && (mp < 11 ==> doy < MonthOffset(mp + 1))
  {
  }

  /** Days from 1 March of year 0 to 1 March of year y. */
  lemma MarchStart(y: int)
    ensures YearStart(y) + DaysBeforeMonth(y, 3) == 365 * y + y / 4 - y / 100 + y / 400 - 719468
    ensures YearStart(y + 1) == YearStart(y) + DaysBeforeMonth(y, 3) + 306
  {
    YearStartClosed(y);
    LeapsStep(y);
    WholeYear(y);
    YearStartStep(y);
  }

  lemma EraYears(era: int, yoe: int)
    requires 0 <= yoe < 400
    ensures var y := yoe + era * 400;
            365 * y + y / 4 - y / 100 + y / 400 == era * 146097 + DaysBeforeYearOfEra(yoe)
  {
    var y := yoe + era * 400;
    assert y / 4 == era * 100 + yoe / 4;
    assert y / 100 == era * 4 + yoe / 100;
    assert y / 400 == era;
  }

  lemma MarchFirstOfEra(era: int, yoe: int)
    requires 0 <= yoe < 400
    ensures MarchFirst(yoe + era * 400) == era * 146097 + DaysBeforeYearOfEra(yoe) - 719468
  {
    EraYears(era, yoe);
    MarchStart(yoe + era * 400);
  }

  /** A 366th day occurs only in a year that ends with a leap February. */
  lemma LastDayLeap(era: int, s: Split)
    requires ValidSplit(s) && s.r == 365
    ensures IsLeap(100 * s.c + 4 * s.q + s.y + era * 400 + 1)
  {
    var y := 100 * s.c + 4 * s.q + s.y + era * 400 + 1;
    assert y == 4 * (25 * s.c + s.q + 1 + era * 100);
    if s.q == 24 {
      assert y == 400 * (era + 1);
    } else {
      assert y == 100 * (s.c + 4 * era) + 4 * (s.q + 1);
      assert 0 < 4 * (s.q + 1) < 100;
    }
  }

  /** Days from the epoch to 1 March of a year. */
  function MarchFirst(y: int): int {
    YearStart(y) + DaysBeforeMonth(y, 3)
  }

  lemma FromMarchCorrect(y: int, doy: int)
    requires 0 <= doy <= 365 && (doy == 365 ==> IsLeap(y + 1))
    ensures var date := InYear(y, FromMarch(doy));
            ValidDate(date) && DayNumber(date) == MarchFirst(y) + doy
  {
    var mp := (5 * doy + 2) / 153;
    MonthOfDay(doy);
    if mp < 10 {
      MarchMonths(y, mp + 3);
      if mp < 9 {
        MarchMonths(y, mp + 4);
      }
    } else {
      YearStartStep(y);
      WholeYear(y);
      WholeYear(y + 1);
    }
  }

  lemma MarchYearCorrect(days: int)
    ensures var (y, doy) := MarchYear(days);
            && 0 <= doy <= 365 && (doy == 365 ==> IsLeap(y + 1))
            && MarchFirst(y) + doy == days
  {
    var z := days + 719468;
    var era := Era(z);
    var doe := z - era * 146097;
    EraIsFloor(z);
    assert MarchYear(days) == FromEra(era, doe);
    FromDayOfEra(era, doe);
  }

  lemma FromDayOfEra(era: int, doe: int)
    requires 0 <= doe < 146097
    ensures var (y, doy) := FromEra(era, doe);
            && 0 <= doy <= 365 && (doy == 365 ==> IsLeap(y + 1))
            && MarchFirst(y) + doy == era * 146097 + doe - 719468
  {
    var s := SplitDay(doe);
    FromEraCorrect(era, s);
  }

  lemma FromEraCorrect(era: int, s: Split)
    requires ValidSplit(s)
    ensures var (y, doy) := FromEra(era, DayOfEra(s));
            && 0 <= doy <= 365 && (doy == 365 ==> IsLeap(y + 1))
            && MarchFirst(y) + doy == era * 146097 + DayOfEra(s) - 719468
  {
    YearOfEraOfSplit(s);
    MarchFirstOfEra(era, 100 * s.c + 4 * s.q + s.y);
    if s.r == 365 {
      LastDayLeap(era, s);
    }
  }

  /** The closed form inverts the numbering of days, for every integer. */
  lemma DaysToYmdCorrect(days: int)
    ensures ValidDate(DaysToYmd(days)) && DayNumber(DaysToYmd(days)) == days
  {
    MarchYearCorrect(days);
    FromMarchCorrect(MarchYear(days).0, MarchYear(days).1);
  }

  // ---- The closed form with 32-bit years ----

  function Wrap32(n: int): int {
    (n + 0x8000_0000) % U32_LIMIT - 0x8000_0000
  }

  /** The year counted from March, wrapped at every step. */
  function MarchYear32(days: int): int {
    var z := days + 719468;
    var era := if z >= 0 then TruncDiv(z, 146097) else TruncDiv(z - 146096, 146097);
    Wrap32(YearOfEra(z - era * 146097) + Wrap32(Wrap32(era) * 400))
  }

  function DaysToYmd32(days: int): Date {
    var md := FromMarch(MarchYear(days).1);
    var y := MarchYear32(days);
    Date(if md.carry then Wrap32(y + 1) else y, md.month, md.day)
  }

  lemma WrapRange(n: int)
    ensures -0x8000_0000 <= Wrap32(n) < 0x8000_0000
    ensures Wrap32(n) == n <==> -0x8000_0000 <= n < 0x8000_0000
  {
  }

  lemma WrapSame(a: int, b: int, k: int)
    requires a == b + U32_LIMIT * k
    ensures Wrap32(a) == Wrap32(b)
  {
    var m := b + 0x8000_0000;
    assert a + 0x8000_0000 == m + U32_LIMIT * k;
    ModShift(m, k);
  }

  lemma ModShift(m: int, k: int)
    ensures (m + U32_LIMIT * k) % U32_LIMIT == m % U32_LIMIT
  {
    var q, r := m / U32_LIMIT, m % U32_LIMIT;
    assert m + U32_LIMIT * k == U32_LIMIT * (q + k) + r;
  }

  lemma WrapBack(n: int) returns (k: int)
    ensures Wrap32(n) == n + U32_LIMIT * k
  {
    k := -((n + 0x8000_0000) / U32_LIMIT);
  }

  lemma MarchYear32IsWrapped(days: int)
    ensures MarchYear32(days) == Wrap32(MarchYear(days).0)
  {
    var z := days + 719468;
    var era := Era(z);
    WrapYear(YearOfEra(z - era * 146097), era);
  }

  lemma WrapYear(yoe: int, era: int)
    ensures Wrap32(yoe + Wrap32(Wrap32(era) * 400)) == Wrap32(yoe + era * 400)
  {
    var k := WrapBack(era);
    WrapSame(Wrap32(era) * 400, era * 400, 400 * k);
    var j := WrapBack(era * 400);
    WrapSame(yoe + Wrap32(era * 400), yoe + era * 400, j);
  }

  lemma WrapSuccessor(n: int)
    ensures Wrap32(Wrap32(n) + 1) == Wrap32(n + 1)
  {
    var i := WrapBack(n);
    WrapSame(Wrap32(n) + 1, n + 1, i);
  }

  /** Wrapping at every step is wrapping the exact year once. */
  lemma DaysToYmd32IsWrapped(days: int)
    ensures DaysToYmd32(days) == DaysToYmd(days).(year := Wrap32(DaysToYmd(days).year))
  {
    MarchYear32IsWrapped(days);
    WrapSuccessor(MarchYear(days).0);
  }

  /** The two closed forms agree exactly on the days whose year fits 32 signed bits. */
  lemma ClosedFormsAgree(days: int)
    ensures DaysToYmd32(days) == DaysToYmd(days)
       <==> -0x8000_0000 <= DaysToYmd(days).year < 0x8000_0000
  {
    DaysToYmd32IsWrapped(days);
    WrapRange(DaysToYmd(days).year);
  }

  // ---- The loops ----

  const MONTHS := 12

  /** The date of an unsigned 32-bit day number, by counting whole years and then whole months. */
  method CountDate(days: nat) returns (d: Date)
    ensures ValidDate(d) && DayNumber(d) == days
  {
    var year := 1970;
    var rem := days;
    while rem >= DaysInYear(year)
      invariant year >= 1970 && rem >= 0
      invariant YearStart(year) + rem == days
      decreases rem
    {
      YearStartStep(year);
      rem := rem - DaysInYear(year);
      year := year + 1;
    }
    var month := 1;
    WholeYear(year);
    while month <= MONTHS && rem >= DaysInMonth(year, month)
      invariant 1 <= month <= 13 && rem >= 0
      invariant YearStart(year) + DaysBeforeMonth(year, month) + rem == days
      invariant DaysBeforeMonth(year, month) + rem < DaysInYear(year)
      decreases 13 - month
    {
      rem := rem - DaysInMonth(year, month);
      month := month + 1;
    }
    d := Date(year, month, rem + 1);
  }

  /** The function the loops compute: the day number is first cut to 32 bits. */
  function CountedDate(days: nat): Date {
    DaysToYmd(days % U32_LIMIT)
  }

  method EpochToDatetime(secs: nat) returns (t: Stamp)
    ensures t == Stamp(CountedDate(secs / 86400), (secs / 3600) % 24, (secs / 60) % 60, secs % 60)
  {
    var days := secs / 86400 % U32_LIMIT;
    var d := CountDate(days);
    DaysToYmdCorrect(days);
    DayNumberOrder(d, DaysToYmd(days));
    t := Stamp(d, (secs / 3600) % 24, (secs / 60) % 60, secs % 60);
  }

  // ---- The three together ----

  function Rfc3339(secs: nat): Stamp {
    var sod := secs % 86400;
    Stamp(DaysToYmd(secs / 86400), sod / 3600, (sod % 3600) / 60, sod % 60)
  }

  function FromUnix(secs: nat): Stamp {
    var sod := secs % 86400;
    Stamp(DaysToYmd32(secs / 86400), sod / 3600, (sod % 3600) / 60, sod % 60)
  }

  function Counted(secs: nat): Stamp {
    Stamp(CountedDate(secs / 86400), (secs / 3600) % 24, (secs / 60) % 60, secs % 60)
  }

  lemma ClockFields(secs: nat)
    ensures var sod := secs % 86400;
            && (secs / 3600) % 24 == sod / 3600
            && (secs / 60) % 60 == (sod % 3600) / 60
            && secs % 60 == sod % 60
  {
    HourOfDay(secs);
    MinuteOfHour(secs);
    SecondOfMinute(secs);
  }

  lemma HourOfDay(secs: nat)
    ensures (secs / 3600) % 24 == secs % 86400 / 3600
  {
    var d, hour, low := secs / 3600 / 24, secs / 3600 % 24, secs % 3600;
    DivMod(secs, 86400, d, 3600 * hour + low);
    DivMod(3600 * hour + low, 3600, hour, low);
  }

  lemma MinuteOfHour(secs: nat)
    ensures (secs / 60) % 60 == secs % 86400 % 3600 / 60
  {
    RestOfHour(secs);
    var hours, minute, low := secs / 60 / 60, secs / 60 % 60, secs % 60;
    DivMod(secs, 3600, hours, 60 * minute + low);
    DivMod(60 * minute + low, 60, minute, low);
  }

  lemma RestOfHour(secs: nat)
    ensures secs % 86400 % 3600 == secs % 3600
  {
    var d, hour, rest := secs / 86400, secs % 86400 / 3600, secs % 86400 % 3600;
    DivMod(secs, 3600, 24 * d + hour, rest);
  }

  lemma SecondOfMinute(secs: nat)
    ensures secs % 60 == secs % 86400 % 60
  {
    var d, minute, low := secs / 86400, secs % 86400 / 60, secs % 86400 % 60;
    DivMod(secs, 60, 1440 * d + minute, low);
  }

  lemma YearBounds(days: nat)
    ensures DaysToYmd(days).year >= 1970
    ensures days < U32_LIMIT ==> DaysToYmd(days).year < 0x8000_0000
  {
    var d := DaysToYmd(days);
    DaysToYmdCorrect(days);
    WithinYear(d);
    YearStartClosed(0x8000_0000);
    if d.year < 1970 {
      YearStartMonotone(d.year, 1970);
    }
    if d.year >= 0x8000_0000 {
      if d.year > 0x8000_0000 {
        YearStartMonotone(0x8000_0000, d.year);
      }
    }
  }

  /** Every second of a day number that fits 32 bits gets the same stamp from all three conversions. */
  lemma AllAgree(secs: nat)
    requires secs / 86400 < U32_LIMIT
    ensures Rfc3339(secs) == FromUnix(secs) == Counted(secs)
    ensures ValidDate(Rfc3339(secs).date) && DayNumber(Rfc3339(secs).date) == secs / 86400
  {
    var days := secs / 86400;
    DatesAgree(days);
    ClockFields(secs);
  }

  lemma DatesAgree(days: nat)
    requires days < U32_LIMIT
    ensures DaysToYmd(days) == DaysToYmd32(days) == CountedDate(days)
    ensures ValidDate(DaysToYmd(days)) && DayNumber(DaysToYmd(days)) == days
  {
    DaysToYmdCorrect(days);
    YearBounds(days);
    ClosedFormsAgree(days);
    CountedDateExact(days);
  }

  lemma CountedDateExact(days: nat)
    ensures CountedDate(days) == DaysToYmd(days) <==> days < U32_LIMIT
  {
    var n := days % U32_LIMIT;
    assert n == days <==> days < U32_LIMIT;
    SameDate(days, n);
  }

  /** Different days have different dates. */
  lemma SameDate(a: int, b: int)
    ensures DaysToYmd(a) == DaysToYmd(b) <==> a == b
  {
    DaysToYmdCorrect(a);
    DaysToYmdCorrect(b);
    DayNumberOrder(DaysToYmd(a), DaysToYmd(b));
  }

  /** The loops agree with the 64-bit closed form exactly on those seconds. */
  lemma CountedAgreesExactly(secs: nat)
    ensures Counted(secs) == Rfc3339(secs) <==> secs / 86400 < U32_LIMIT
  {
    ClockFields(secs);
    CountedDateExact(secs / 86400);
  }

  predicate StampBefore(a: Stamp, b: Stamp) {
    || Before(a.date, b.date)
    || (a.date == b.date &&
        (|| a.hour < b.hour
         || (a.hour == b.hour && a.minute < b.minute)
         || (a.hour == b.hour && a.minute == b.minute && a.second < b.second)))
  }

  /** Later seconds have later stamps, field by field from the year down. */
  lemma StampsInOrder(s: nat, t: nat)
    ensures s < t <==> StampBefore(Rfc3339(s), Rfc3339(t))
  {
    DaysToYmdCorrect(s / 86400);
    DaysToYmdCorrect(t / 86400);
    DayNumberOrder(DaysToYmd(s / 86400), DaysToYmd(t / 86400));
    SecondsOfDay(s);
    SecondsOfDay(t);
  }

  lemma DateOfStamp(secs: nat)
    ensures ValidDate(Rfc3339(secs).date) && DayNumber(Rfc3339(secs).date) == secs / 86400
  {
    var days := secs / 86400;
    DaysToYmdCorrect(days);
  }

  /** A stamp counts back to its second, and its fields are in range. */
  lemma StampCountsBack(secs: nat)
    ensures var t := Rfc3339(secs);
            && ValidDate(t.date) && secs == 86400 * DayNumber(t.date) + 3600 * t.hour + 60 * t.minute + t.second
            && 0 <= t.hour < 24 && 0 <= t.minute < 60 && 0 <= t.second < 60
  {
    DateOfStamp(secs);
    SecondsOfDay(secs);
  }

  lemma SecondsOfDay(s: nat)
    ensures var x := Rfc3339(s);
            && s == 86400 * (s / 86400) + 3600 * x.hour + 60 * x.minute + x.second
            && 0 <= x.hour < 24 && 0 <= x.minute < 60 && 0 <= x.second < 60
  {
    var sod := s % 86400;
    assert sod % 60 == (sod % 3600) % 60;
  }
}

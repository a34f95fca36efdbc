/**
 Calendar arithmetic: the two civil-from-days copies (src/display.rs and
 src/blame_engine.rs) with their own integer types, the split of a UNIX timestamp, and
 RFC 3339 printing, against a Gregorian calendar defined from leap years
 (RFC 3339, section 5.7 and Appendix C) and month lengths alone.
 */
module UtcCalendar {
  import opened Common

  const I32_MIN := -0x8000_0000
  const I32_MAX := 0x7fff_ffff
  const I64_MIN := -0x8000_0000_0000_0000
  const I64_MAX := 0x7fff_ffff_ffff_ffff
  const LAST_DAY := 0x7fff_ffff_ffff_ffff - 719_468

  type u32 = x: int | 0 <= x < 0x1_0000_0000
  type u64 = x: int | 0 <= x < 0x1_0000_0000_0000_0000
  type i64 = x: int | I64_MIN <= x <= I64_MAX

  datatype Date = Date(year: int, month: int, day: int)

  // ------------------------------------------------- the Gregorian calendar

  predicate IsLeap(y: int) {
    y % 4 == 0 && (y % 100 != 0 || y % 400 == 0)
  }

  function DaysInMonth(y: int, m: int): nat
    requires 1 <= m <= 12
  {
    if m == 2 then if IsLeap(y) then 29 else 28
    else if m in {4, 6, 9, 11} then 30 else 31
  }

  predicate Valid(d: Date) {
    1 <= d.month <= 12 && 1 <= d.day <= DaysInMonth(d.year, d.month)
  }

  function NextDay(d: Date): Date
    requires Valid(d)
  {
    if d.day < DaysInMonth(d.year, d.month) then d.(day := d.day + 1)
    else if d.month < 12 then Date(d.year, d.month + 1, 1)
    else Date(d.year + 1, 1, 1)
  }

  predicate Before(a: Date, b: Date) {
    a.year < b.year || (a.year == b.year && (a.month < b.month || (a.month == b.month && a.day < b.day)))
  }

  /** Days from 0001-01-01 to January 1st of year `y`. */
  function DaysBeforeYear(y: int): int {
    365 * (y - 1) + (y - 1) / 4 - (y - 1) / 100 + (y - 1) / 400
  }

  function DaysBeforeMonth(y: int, m: int): nat
    requires 1 <= m <= 13
    decreases m
  {
    if m == 1 then 0 else DaysBeforeMonth(y, m - 1) + DaysInMonth(y, m - 1)
  }

  /** Days since 1970-01-01. */
  function DayNumber(d: Date): int
    requires 1 <= d.month <= 12
  {
    DaysBeforeYear(d.year) + DaysBeforeMonth(d.year, d.month) + d.day - 1 - 719_162
  }

  lemma Quarter(y: int)
    ensures y / 4 == (y - 1) / 4 + if y % 4 == 0 then 1 else 0
  {
    assert 4 * ((y - 1) / 4) <= y - 1 < 4 * ((y - 1) / 4) + 4;
  }

  lemma Century(y: int)
    ensures y / 100 == (y - 1) / 100 + if y % 100 == 0 then 1 else 0
  {
    assert 100 * ((y - 1) / 100) <= y - 1 < 100 * ((y - 1) / 100) + 100;
  }

  lemma FourCenturies(y: int)
    ensures y / 400 == (y - 1) / 400 + if y % 400 == 0 then 1 else 0
  {
    assert 400 * ((y - 1) / 400) <= y - 1 < 400 * ((y - 1) / 400) + 400;
  }

  lemma YearLength(y: int)
    ensures DaysBeforeYear(y + 1) == DaysBeforeYear(y) + if IsLeap(y) then 366 else 365
  {
    Quarter(y);
    Century(y);
    FourCenturies(y);
  }

  lemma MonthTable(y: int)
    ensures forall m :: 1 <= m <= 13 ==>
              DaysBeforeMonth(y, m) == [0, 31, 59, 90, 120, 151, 181, 212, 243, 273, 304, 334, 365][m - 1]
                                       + if m > 2 && IsLeap(y) then 1 else 0
  {
    assert DaysBeforeMonth(y, 3) == DaysBeforeMonth(y, 2) + DaysInMonth(y, 2);
    assert DaysBeforeMonth(y, 5) == DaysBeforeMonth(y, 4) + DaysInMonth(y, 4);
    assert DaysBeforeMonth(y, 7) == DaysBeforeMonth(y, 6) + DaysInMonth(y, 6);
    assert DaysBeforeMonth(y, 9) == DaysBeforeMonth(y, 8) + DaysInMonth(y, 8);
    assert DaysBeforeMonth(y, 11) == DaysBeforeMonth(y, 10) + DaysInMonth(y, 10);
    assert DaysBeforeMonth(y, 13) == DaysBeforeMonth(y, 12) + DaysInMonth(y, 12);
  }

  lemma {:induction false} DaysBeforeMonthGrows(y: int, m: int, n: int)
    requires 1 <= m < n <= 13
    ensures DaysBeforeMonth(y, m) + DaysInMonth(y, m) <= DaysBeforeMonth(y, n)
    decreases n
  {
    if m + 1 < n {
      DaysBeforeMonthGrows(y, m, n - 1);
    }
  }

  lemma {:induction false} DaysBeforeYearGrows(y: int, z: int)
    requires y < z
    ensures DaysBeforeYear(y + 1) <= DaysBeforeYear(z)
    decreases z - y
  {
    if y + 1 < z {
      DaysBeforeYearGrows(y + 1, z);
      YearLength(y + 1);
    }
  }

  lemma DayNumberIsMonotone(a: Date, b: Date)
    requires Valid(a) && Valid(b) && Before(a, b)
    ensures DayNumber(a) < DayNumber(b)
  {
    if a.year < b.year {
      DaysBeforeMonthGrows(a.year, a.month, 13);
      MonthTable(a.year);
      YearLength(a.year);
      DaysBeforeYearGrows(a.year, b.year);
    } else if a.month < b.month {
      DaysBeforeMonthGrows(a.year, a.month, b.month);
    }
  }

  lemma DayNumberIsInjective(a: Date, b: Date)
    requires Valid(a) && Valid(b)
    ensures DayNumber(a) == DayNumber(b) <==> a == b
    ensures DayNumber(a) < DayNumber(b) <==> Before(a, b)
  {
    if Before(a, b) { DayNumberIsMonotone(a, b); }
    if Before(b, a) { DayNumberIsMonotone(b, a); }
  }

  lemma MonthEnd(y: int, m: int)
    requires 1 <= m < 12
    ensures DayNumber(Date(y, m + 1, 1)) == DayNumber(Date(y, m, DaysInMonth(y, m))) + 1
  {
    assert DaysBeforeMonth(y, m + 1) == DaysBeforeMonth(y, m) + DaysInMonth(y, m);
  }

  lemma YearEnd(y: int)
    ensures DayNumber(Date(y + 1, 1, 1)) == DayNumber(Date(y, 12, 31)) + 1
  {
    MonthTable(y);
    YearLength(y);
    assert DaysBeforeMonth(y, 12) == 334 + if IsLeap(y) then 1 else 0;
  }

  lemma NextDayCountsOne(d: Date)
    requires Valid(d)
    ensures Valid(NextDay(d)) && DayNumber(NextDay(d)) == DayNumber(d) + 1
  {
    if d.day == DaysInMonth(d.year, d.month) {
      if d.month < 12 { MonthEnd(d.year, d.month); } else { YearEnd(d.year); }
    }
  }

  // ------------------------------------------------------ civil from days

  /** Rust's `/` on signed integers truncates toward zero. */
  function TruncDiv(a: int, b: int): int
    requires b > 0
  {
    if a >= 0 then a / b else -(-a / b)
  }

  function Era(z: int): int {
    TruncDiv(if z >= 0 then z else z - 146_096, 146_097)
  }

  function DayOfEra(z: int): nat {
    z - z / 146_097 * 146_097
  }

  /** The correction before the truncating division makes the era a floor. */
  lemma EraIsFloor(z: int)
    ensures Era(z) == z / 146_097
    ensures z - Era(z) * 146_097 == DayOfEra(z) < 146_097 && AsU32(z - Era(z) * 146_097) == DayOfEra(z)
  {
    if z < 0 {
      var q, r := z / 146_097, z % 146_097;
      assert z == 146_097 * q + r;
      assert -(z - 146_096) == 146_097 * (-q) + (146_096 - r);
      assert -(z - 146_096) / 146_097 == -q;
    }
  }

  /** Wrap-around of `as u32`, `as i32`. */
  function AsU32(x: int): u32 { x % 0x1_0000_0000 }
  function AsI32(x: int): int { (x - I32_MIN) % 0x1_0000_0000 + I32_MIN }

  lemma EraBounds(z: i64)
    ensures I64_MIN / 200 <= Era(z) * 400 <= I64_MAX / 200
  {
    EraIsFloor(z);
  }

  // The steps of both copies, each typed as the source types it. Every typed `var` and
  // result is a proof that its unsigned subtractions do not underflow.

  function YearOfEraOf(doe: nat): int {
    (doe - doe / 1460 + doe / 36_524 - doe / 146_096) / 365
  }

  function DayOfYearOf(doe: nat): int {
    doe - (365 * YearOfEraOf(doe) + YearOfEraOf(doe) / 4 - YearOfEraOf(doe) / 100)
  }

  /** Month and day on day `doy` of a year that starts in March. */
  function MonthDayOf(doy: nat): (int, int) {
    var mp := (5 * doy + 2) / 153;
    (if mp < 10 then mp + 3 else mp - 9, doy - (153 * mp + 2) / 5 + 1)
  }

  function DayOfEraU32(z: i64): (doe: u32)
    ensures doe == DayOfEra(z) < 146_097
  {
    EraIsFloor(z);
    AsU32(z - Era(z) * 146_097)
  }

  function YearU32(doe: u32): (yoe: u32)
    requires doe < 146_097
    ensures yoe == YearOfEraOf(doe)
  {
    YearOfEra(doe);
    var a: u32 := doe - doe / 1460;
    var b: u32 := a + doe / 36_524 - doe / 146_096;
    b / 365
  }

  function DayOfYearU32(doe: u32): (doy: u32)
    requires doe < 146_097
    ensures doy == DayOfYearOf(doe)
  {
    var yoe := YearU32(doe);
    YearOfEra(doe);
    var a: u32 := 365 * yoe + yoe / 4 - yoe / 100;
    doe - a
  }

  function MonthDayU32(doy: u32): (md: (u32, u32))
    requires doy <= 365
    ensures md == MonthDayOf(doy)
  {
    MarchMonth(doy);
    var mp: u32 := (5 * doy + 2) / 153;
    var d: u32 := doy - (153 * mp + 2) / 5 + 1;
    (if mp < 10 then mp + 3 else mp - 9, d)
  }

  /** `format_yyyy_mm_dd` up to printing: `u32` intermediates, `i64` year. */
  function CivilU32(days: i64): Date
    requires days <= LAST_DAY
  {
    var z: i64 := days + 719_468;
    EraBounds(z);
    var doe := DayOfEraU32(z);
    YearOfEra(doe);
    var y: i64 := YearU32(doe) + Era(z) * 400;
    var (m, d) := MonthDayU32(DayOfYearU32(doe));
    Date(if m <= 2 then y + 1 else y, m, d)
  }

  function DayOfEraU64(z: i64): (doe: u64)
    ensures doe == DayOfEra(z) < 146_097
  {
    EraIsFloor(z);
    z - Era(z) * 146_097
  }

  function YearU64(doe: u64): (yoe: u64)
    requires doe < 146_097
    ensures yoe == YearOfEraOf(doe)
  {
    YearOfEra(doe);
    var a: u64 := doe - doe / 1460;
    var b: u64 := a + doe / 36_524 - doe / 146_096;
    b / 365
  }

  function DayOfYearU64(doe: u64): (doy: u64)
    requires doe < 146_097
    ensures doy == DayOfYearOf(doe)
  {
    var yoe := YearU64(doe);
    YearOfEra(doe);
    var a: u64 := 365 * yoe + yoe / 4 - yoe / 100;
    doe - a
  }

  /** Month and day are computed in `u64` and cast to `u32`. */
  function MonthDayU64(doy: u64): (md: (u32, u32))
    requires doy <= 365
    ensures md == MonthDayOf(doy)
  {
    MarchMonth(doy);
    var mp: u64 := (5 * doy + 2) / 153;
    var day: u64 := doy - (153 * mp + 2) / 5 + 1;
    var month: u64 := if mp < 10 then mp + 3 else mp - 9;
    (AsU32(month), AsU32(day))
  }

  datatype Stamp = Stamp(year: int, month: int, day: int, hour: int, min: int, sec: int)

  /** The date half of `ymd_hms_from_unix`, before the year is cast: `u64` intermediates. */
  function CivilU64(days: i64): Date
    requires days <= LAST_DAY
  {
    var z: i64 := days + 719_468;
    EraBounds(z);
    var doe := DayOfEraU64(z);
    YearOfEra(doe);
    var y: i64 := YearU64(doe) + Era(z) * 400;
    var (m, d) := MonthDayU64(DayOfYearU64(doe));
    Date(if m <= 2 then y + 1 else y, m, d)
  }

  /** `ymd_hms_from_unix`, for any `i64`. */
  function StampFromUnix(ts: i64): Stamp {
    var daySec := ts % 86_400;
    var date := CivilU64(ts / 86_400);
    Stamp(AsI32(date.year), date.month, date.day, daySec / 3600, daySec % 3600 / 60, daySec % 60)
  }

  /** Days from March 1st of year 0 of an era to March 1st of year `y` of it. */
  function MarchDays(y: int): int {
    365 * y + y / 4 - y / 100 + y / 400
  }

  /** A day of the era by 100-year, 4-year and 1-year blocks. */
  lemma Blocks(doe: nat) returns (c: nat, q: nat, s: nat, e: nat)
    requires doe < 146_096
    ensures c <= 3 && q <= 24 && s < 1461 && (q == 24 ==> s < 1460)
    ensures doe == 36_524 * c + 1461 * q + s && e == (24 * c + q + s) / 1460
    ensures doe / 36_524 == c && doe / 1460 == 25 * c + q + e && doe / 146_096 == 0
  {
    c := doe / 36_524;
    var r := doe - 36_524 * c;
    q := r / 1461;
    s := r - 1461 * q;
    e := (24 * c + q + s) / 1460;
    assert 1460 * (25 * c + q + e) <= doe < 1460 * (25 * c + q + e + 1);
  }

  lemma YearFromBlocks(doe: nat, c: nat, q: nat, s: nat, e: nat, t: nat)
    requires c <= 3 && q <= 24 && s < 1461 && (q == 24 ==> s < 1460)
    requires e == (24 * c + q + s) / 1460 && t == (if s == 1460 then 3 else s / 365)
    requires doe == 36_524 * c + 1461 * q + s
    requires doe - doe / 1460 + doe / 36_524 - doe / 146_096 == 36_500 * c + 1460 * q + s - e
    ensures YearOfEraOf(doe) == 100 * c + 4 * q + t < 400
    ensures 0 <= DayOfYearOf(doe) <= 365
    ensures DayOfYearOf(doe) == 365 ==> IsLeap(YearOfEraOf(doe) + 1)
  {
    BlockYears(c, q, s, e, t);
    var yoe := 100 * c + 4 * q + t;
    assert YearOfEraOf(doe) == yoe;
    assert 365 * yoe + yoe / 4 - yoe / 100 == 36_524 * c + 1461 * q + 365 * t;
  }

  /** The year-of-era estimate is exact. */
  lemma YearOfEra(doe: nat)
    requires doe < 146_097
    ensures 0 <= doe - doe / 1460 + doe / 36_524 - doe / 146_096
    ensures 0 <= YearOfEraOf(doe) < 400 && 0 <= DayOfYearOf(doe) <= 365
    ensures DayOfYearOf(doe) == 365 ==> IsLeap(YearOfEraOf(doe) + 1)
  {
    if doe < 146_096 {
      var c, q, s, e := Blocks(doe);
      YearFromBlocks(doe, c, q, s, e, if s == 1460 then 3 else s / 365);
    }
  }

  lemma BlockYears(c: nat, q: nat, s: nat, e: nat, t: nat)
    requires c <= 3 && q <= 24 && s < 1461 && (q == 24 ==> s < 1460)
    requires e == (24 * c + q + s) / 1460 && t == (if s == 1460 then 3 else s / 365)
    ensures (36_500 * c + 1460 * q + s - e) / 365 == 100 * c + 4 * q + t
    ensures var yoe := 100 * c + 4 * q + t;
            yoe < 400 && yoe / 4 == 25 * c + q && yoe / 100 == c
            && s - 365 * t <= 365 && s >= 365 * t && (s - 365 * t == 365 ==> IsLeap(yoe + 1))
  {
    assert t <= 3 && 0 <= s - e - 365 * t < 365;
    var yoe := 100 * c + 4 * q + t;
    assert 365 * yoe <= 36_500 * c + 1460 * q + s - e < 365 * (yoe + 1);
    assert 4 * (25 * c + q) <= yoe < 4 * (25 * c + q + 1);
    assert 100 * c <= yoe < 100 * (c + 1);
    if s - 365 * t == 365 {
      assert t == 3 && q < 24 && s == 1460;
      assert yoe + 1 == 4 * (25 * c + q + 1);
      assert yoe + 1 == 100 * c + 4 * (q + 1) && 0 < 4 * (q + 1) < 100;
    }
  }

  /** Month `mp` counted from March starts on day `(153 mp + 2) / 5` of the March year. */
  lemma MarchMonth(doy: nat)
    requires doy <= 365
    ensures var mp := (5 * doy + 2) / 153;
            mp <= 11 && (153 * mp + 2) / 5 <= doy < (153 * (mp + 1) + 2) / 5
  {
  }

  lemma EraQuarters(era: int, yoe: nat)
    ensures (yoe + era * 400) / 4 == 100 * era + yoe / 4 && (yoe + era * 400) % 4 == yoe % 4
  {
    assert yoe + era * 400 == 4 * (100 * era + yoe / 4) + yoe % 4;
  }

  lemma EraCenturies(era: int, yoe: nat)
    ensures (yoe + era * 400) / 100 == 4 * era + yoe / 100 && (yoe + era * 400) % 100 == yoe % 100
  {
    assert yoe + era * 400 == 100 * (4 * era + yoe / 100) + yoe % 100;
  }

  lemma EraYears(era: int, yoe: nat)
    ensures (yoe + era * 400) / 400 == era + yoe / 400 && (yoe + era * 400) % 400 == yoe % 400
  {
    assert yoe + era * 400 == 400 * (era + yoe / 400) + yoe % 400;
  }

  lemma MarchDaysOfEra(era: int, yoe: nat)
    requires yoe < 400
    ensures MarchDays(yoe + era * 400) == era * 146_097 + 365 * yoe + yoe / 4 - yoe / 100
    ensures IsLeap(yoe + era * 400 + 1) == IsLeap(yoe + 1)
  {
    EraQuarters(era, yoe);
    EraCenturies(era, yoe);
    EraYears(era, yoe);
    LeapYearsRepeat(era, yoe + 1);
  }

  lemma LeapYearsRepeat(era: int, yoe: nat)
    ensures IsLeap(yoe + era * 400) == IsLeap(yoe)
  {
    EraQuarters(era, yoe);
    EraCenturies(era, yoe);
    EraYears(era, yoe);
  }

  /** Where the months fall when the year starts in March. */
  lemma MonthStart(y: int, mp: nat)
    requires mp <= 11
    ensures if mp < 10 then DaysBeforeMonth(y, mp + 3) == 59 + (153 * mp + 2) / 5 + if IsLeap(y) then 1 else 0
            else DaysBeforeMonth(y, mp - 9) == (153 * mp + 2) / 5 - 306
  {
    MonthTable(y);
    assert mp in {0, 1, 2, 3, 4, 5, 6, 7, 8, 9, 10, 11};
  }

  /** The date on day `doy` of the March year `y`. */
  function DateOfMarchYear(y: int, doy: nat): Date {
    var (m, d) := MonthDayOf(doy);
    Date(if m <= 2 then y + 1 else y, m, d)
  }

  lemma MarchYearDates(y: int, doy: nat)
    requires doy <= 365 && (doy == 365 ==> IsLeap(y + 1))
    ensures Valid(DateOfMarchYear(y, doy))
    ensures DayNumber(DateOfMarchYear(y, doy)) == MarchDays(y) + doy - 719_468
  {
    var mp := (5 * doy + 2) / 153;
    MarchMonth(doy);
    MonthStart(y, mp);
    MonthStart(y + 1, mp);
    YearLength(y);
    assert DaysBeforeYear(y + 1) == MarchDays(y);
    MonthDays(y, doy, mp);
  }

  lemma MonthDays(y: int, doy: nat, mp: nat)
    requires doy <= 365 && (doy == 365 ==> IsLeap(y + 1)) && mp == (5 * doy + 2) / 153
    ensures var d := doy - (153 * mp + 2) / 5 + 1;
            if mp < 10 then 1 <= d <= DaysInMonth(y, mp + 3) else mp <= 11 && 1 <= d <= DaysInMonth(y + 1, mp - 9)
  {
    MarchMonth(doy);
  }

  lemma YearAndDayDates(era: int, doe: nat, yoe: nat, doy: nat)
    requires yoe < 400 && doy <= 365 && (doy == 365 ==> IsLeap(yoe + 1))
    requires doe == 365 * yoe + yoe / 4 - yoe / 100 + doy
    ensures var date := DateOfMarchYear(yoe + era * 400, doy);
            Valid(date) && DayNumber(date) == era * 146_097 + doe - 719_468
  {
    MarchDaysOfEra(era, yoe);
    MarchYearDates(yoe + era * 400, doy);
  }

  lemma YearAndDay(doe: nat) returns (yoe: nat, doy: nat)
    requires doe < 146_097
    ensures yoe == YearOfEraOf(doe) && doy == DayOfYearOf(doe)
    ensures yoe < 400 && doy <= 365 && (doy == 365 ==> IsLeap(yoe + 1))
    ensures doe == 365 * yoe + yoe / 4 - yoe / 100 + doy
  {
    YearOfEra(doe);
    yoe, doy := YearOfEraOf(doe), DayOfYearOf(doe);
  }

  lemma EraDates(era: int, doe: nat)
    requires doe < 146_097
    ensures 0 <= DayOfYearOf(doe)
    ensures var date := DateOfMarchYear(YearOfEraOf(doe) + era * 400, DayOfYearOf(doe));
            Valid(date) && DayNumber(date) == era * 146_097 + doe - 719_468
  {
    var yoe, doy := YearAndDay(doe);
    YearAndDayDates(era, doe, yoe, doy);
  }

  lemma CivilUnfolds(days: i64, z: i64, doe: nat)
    requires days <= LAST_DAY && z == days + 719_468 && doe == DayOfEra(z)
    ensures doe < 146_097 && 0 <= DayOfYearOf(doe)
    ensures CivilU32(days) == DateOfMarchYear(YearOfEraOf(doe) + Era(z) * 400, DayOfYearOf(doe))
  {
    EraBounds(z);
    YearOfEra(doe);
    TypedSteps(DayOfEraU32(z));
  }

  lemma TypedSteps(doe: u32)
    requires doe < 146_097
    ensures 0 <= DayOfYearOf(doe) <= 365 && YearU32(doe) == YearOfEraOf(doe)
    ensures MonthDayU32(DayOfYearU32(doe)) == MonthDayOf(DayOfYearOf(doe))
  {
    YearOfEra(doe);
  }

  /** Every day number yields a valid date, and the date counts back to that day. */
  lemma CivilIsCorrect(days: i64)
    requires days <= LAST_DAY
    ensures Valid(CivilU32(days)) && DayNumber(CivilU32(days)) == days
  {
    var z := days + 719_468;
    var doe := DayOfEra(z);
    CivilUnfolds(days, z, doe);
    EraDates(Era(z), doe);
    EraIsFloor(z);
    DayNumberOfEra(CivilU32(days), z, Era(z), doe);
  }

  lemma DayNumberOfEra(d: Date, z: int, era: int, doe: nat)
    requires Valid(d) && DayNumber(d) == era * 146_097 + doe - 719_468 && z - era * 146_097 == doe
    ensures DayNumber(d) == z - 719_468
  {
  }

  lemma StepsAgree(doe: nat)
    requires doe < 146_097
    ensures YearU64(doe) == YearU32(doe)
    ensures DayOfYearU64(doe) == DayOfYearU32(doe) <= 365
    ensures MonthDayU64(DayOfYearU64(doe)) == MonthDayU32(DayOfYearU32(doe))
  {
    YearOfEra(doe);
  }

  /** The two typed copies compute the same date. */
  lemma CopiesAgree(days: i64)
    requires days <= LAST_DAY
    ensures CivilU64(days) == CivilU32(days)
  {
    StepsAgree(DayOfEraU32(days + 719_468));
  }

  lemma TimeOfDay(ts: i64)
    ensures var s := StampFromUnix(ts);
            0 <= s.hour < 24 && 0 <= s.min < 60 && 0 <= s.sec < 60
            && ts == 86_400 * (ts / 86_400) + 3600 * s.hour + 60 * s.min + s.sec
  {
    SecondsOfDay(ts % 86_400);
  }

  lemma SecondsOfDay(s: int)
    requires 0 <= s < 86_400
    ensures 0 <= s / 3600 < 24 && 0 <= s % 3600 / 60 < 60 && 0 <= s % 60 < 60
    ensures s == 3600 * (s / 3600) + 60 * (s % 3600 / 60) + s % 60
  {
    assert s % 3600 % 60 == s % 60;
  }

  // --------------------------------------------------------- what they are

  lemma Follows(a: Date, b: Date)
    requires Valid(a) && Valid(b) && DayNumber(b) == DayNumber(a) + 1
    ensures b == NextDay(a)
  {
    NextDayCountsOne(a);
    DayNumberIsInjective(b, NextDay(a));
  }

  lemma EpochIsDayZero()
    ensures Valid(Date(1970, 1, 1)) && DayNumber(Date(1970, 1, 1)) == 0
  {
    assert 1969 / 4 == 492 && 1969 / 100 == 19 && 1969 / 400 == 4;
  }

  /** The next day number is the next day of the calendar. */
  lemma CivilFollowsTheCalendar(z: i64)
    requires z + 1 <= LAST_DAY
    ensures Valid(CivilU32(z)) && CivilU32(z + 1) == NextDay(CivilU32(z))
  {
    CivilIsCorrect(z);
    CivilIsCorrect(z + 1);
    Follows(CivilU32(z), CivilU32(z + 1));
  }

  lemma CivilStartsAtTheEpoch()
    ensures CivilU32(0) == Date(1970, 1, 1)
  {
    CivilIsCorrect(0);
    EpochIsDayZero();
    DayNumberIsInjective(CivilU32(0), Date(1970, 1, 1));
  }

  /** Days-from-civil and civil-from-days are inverse in both directions. */
  lemma CivilIsABijection(z: i64, d: Date)
    requires z <= LAST_DAY
    requires Valid(d) && I64_MIN <= DayNumber(d) <= LAST_DAY
    ensures Valid(CivilU32(z)) && DayNumber(CivilU32(z)) == z
    ensures CivilU32(DayNumber(d)) == d
    ensures z < DayNumber(d) <==> Before(CivilU32(z), d)
  {
    var n := DayNumber(d);
    CivilIsCorrect(z);
    CivilIsCorrect(n);
    DayNumberIsInjective(CivilU32(n), d);
    DayNumberIsInjective(CivilU32(z), d);
  }

  /** The first second of year -2^31, and the first of year 2^31. */
  const FIRST_STAMP := 86_400 * -784_353_015_833
  const END_STAMP := 86_400 * 784_351_576_777

  lemma StampRange()
    ensures DayNumber(Date(I32_MIN, 1, 1)) * 86_400 == FIRST_STAMP
    ensures DayNumber(Date(I32_MAX + 1, 1, 1)) * 86_400 == END_STAMP
  {
  }

  lemma YearFits(d: Date, ts: int)
    requires Valid(d) && DayNumber(d) == ts / 86_400
    ensures I32_MIN <= d.year <= I32_MAX <==> FIRST_STAMP <= ts < END_STAMP
  {
    StampRange();
    DayNumberIsInjective(d, Date(I32_MIN, 1, 1));
    DayNumberIsInjective(d, Date(I32_MAX + 1, 1, 1));
  }

  /** The two copies agree, and the fields rebuild the timestamp, exactly when the year
      fits the `i32` it is cast to. */
  lemma StampRebuildsSeconds(ts: i64)
    ensures var s := StampFromUnix(ts);
            1 <= s.month <= 12 &&
            var d := Date(s.year, s.month, s.day);
            (FIRST_STAMP <= ts < END_STAMP <==> d == CivilU32(ts / 86_400))
            && (FIRST_STAMP <= ts < END_STAMP <==>
                DayNumber(d) * 86_400 + 3600 * s.hour + 60 * s.min + s.sec == ts)
  {
    CivilIsCorrect(ts / 86_400);
    CopiesAgree(ts / 86_400);
    TimeOfDay(ts);
    Rebuilds(ts, StampFromUnix(ts), CivilU32(ts / 86_400));
  }

  lemma Rebuilds(ts: int, s: Stamp, c: Date)
    requires Valid(c) && DayNumber(c) == ts / 86_400
    requires s.year == AsI32(c.year) && s.month == c.month && s.day == c.day
    requires ts == 86_400 * (ts / 86_400) + 3600 * s.hour + 60 * s.min + s.sec
    ensures var d := Date(s.year, s.month, s.day);
            (FIRST_STAMP <= ts < END_STAMP <==> d == c)
            && (FIRST_STAMP <= ts < END_STAMP <==>
                DayNumber(d) * 86_400 + 3600 * s.hour + 60 * s.min + s.sec == ts)
  {
    YearFits(c, ts);
    if !(I32_MIN <= c.year <= I32_MAX) {
      WrappedYearIsFar(c, s.year);
    }
  }

  lemma WrappedYearIsFar(c: Date, y: int)
    requires Valid(c) && (y + 2 <= c.year || c.year + 2 <= y)
    ensures DayNumber(c) != DayNumber(Date(y, c.month, c.day))
  {
    MonthTable(y);
    MonthTable(c.year);
    if y < c.year { FarYears(y, c.year); } else { FarYears(c.year, y); }
  }

  lemma FarYears(y: int, z: int)
    requires y + 2 <= z
    ensures DaysBeforeYear(y) + 730 <= DaysBeforeYear(z)
  {
    YearLength(y);
    YearLength(y + 1);
    if y + 2 < z { DaysBeforeYearGrows(y + 1, z); }
  }

  // -------------------------------------------------------------- printing

  function DigitChar(d: nat): char
    requires d < 10
  {
    '0' + d as char
  }

  /** `{n:0w}` for a non-negative number: at least `w` digits, more when `n` needs them. */
  function PadNat(n: nat, w: nat): (s: string)
    ensures |s| >= w
    decreases n + w
  {
    (if n >= 10 || w > 1 then PadNat(n / 10, if w > 0 then w - 1 else 0) else "") + [DigitChar(n % 10)]
  }

  /** Rust's zero padding is sign-aware: the sign takes one of the `w` places. */
  function Pad(n: int, w: nat): string {
    if n >= 0 then PadNat(n, w) else "-" + PadNat(-n, if w > 0 then w - 1 else 0)
  }

  function FormatDate(days: i64): string
    requires days <= LAST_DAY
  {
    DateText(CivilU32(days))
  }

  function DateText(d: Date): string {
    Pad(d.year, 4) + ("-" + (Pad(d.month, 2) + ("-" + Pad(d.day, 2))))
  }

  // `{yr:04}-{mo:02}-{dy:02}T{hr:02}:{mn:02}:{sc:02}Z`, from the right.
  function SecText(s: Stamp): string { Pad(s.sec, 2) + ("Z" + "") }
  function MinText(s: Stamp): string { Pad(s.min, 2) + (":" + SecText(s)) }
  function HourText(s: Stamp): string { Pad(s.hour, 2) + (":" + MinText(s)) }
  function DayText(s: Stamp): string { Pad(s.day, 2) + ("T" + HourText(s)) }
  function MonthText(s: Stamp): string { Pad(s.month, 2) + ("-" + DayText(s)) }
  function FormatStamp(s: Stamp): string { Pad(s.year, 4) + ("-" + MonthText(s)) }

  function FormatRfc3339(ts: i64): string {
    FormatStamp(StampFromUnix(ts))
  }

  function Pow10(w: nat): nat {
    if w == 0 then 1 else 10 * Pow10(w - 1)
  }

  lemma LessConcat(a: string, b: string, x: string, y: string)
    requires |a| == |b|
    ensures Less(a + x, b + y) <==> Less(a, b) || (a == b && Less(x, y))
  {
    if a == "" {
      assert a + x == x && b + y == y;
    } else {
      assert (a + x)[1..] == a[1..] + x && (b + y)[1..] == b[1..] + y;
      LessConcat(a[1..], b[1..], x, y);
      assert a == [a[0]] + a[1..] && b == [b[0]] + b[1..];
    }
  }

  lemma PadLast(n: nat, w: nat)
    requires 1 < w
    ensures PadNat(n, w) == PadNat(n / 10, w - 1) + [DigitChar(n % 10)]
  {
  }

  lemma LessDigits(a: string, b: string, c: nat, d: nat)
    requires |a| == |b| && c < 10 && d < 10
    ensures Less(a + [DigitChar(c)], b + [DigitChar(d)]) <==> Less(a, b) || (a == b && c < d)
    ensures a + [DigitChar(c)] == b + [DigitChar(d)] <==> a == b && c == d
  {
    LessConcat(a, b, [DigitChar(c)], [DigitChar(d)]);
    var x, y := a + [DigitChar(c)], b + [DigitChar(d)];
    assert x[..|a|] == a && y[..|a|] == b && x[|a|] == DigitChar(c) && y[|a|] == DigitChar(d);
  }

  /** Fixed-width numbers compare as strings the way they compare as numbers. */
  lemma {:induction false} LessPadded(m: nat, n: nat, w: nat)
    requires 0 < w && m < Pow10(w) && n < Pow10(w)
    ensures |PadNat(m, w)| == |PadNat(n, w)| == w
    ensures Less(PadNat(m, w), PadNat(n, w)) <==> m < n
    ensures PadNat(m, w) == PadNat(n, w) <==> m == n
    decreases w
  {
    if w == 1 {
      assert Pow10(1) == 10;
      assert PadNat(m, 1) == [DigitChar(m)] && PadNat(n, 1) == [DigitChar(n)];
    } else {
      LessPadded(m / 10, n / 10, w - 1);
      PadLast(m, w);
      PadLast(n, w);
      LessDigits(PadNat(m / 10, w - 1), PadNat(n / 10, w - 1), m % 10, n % 10);
    }
  }

  /** One field and its separator in front of the rest. */
  lemma LessField(m: int, n: int, w: nat, sep: string, x: string, y: string)
    requires 0 < w && 0 <= m < Pow10(w) && 0 <= n < Pow10(w)
    ensures Less(Pad(m, w) + (sep + x), Pad(n, w) + (sep + y)) <==> m < n || (m == n && Less(x, y))
  {
    LessPadded(m, n, w);
    LessConcat(PadNat(m, w), PadNat(n, w), sep + x, sep + y);
    LessConcat(sep, sep, x, y);
    LessIsStrict(sep, sep);
  }

  lemma LessField2(m: int, n: int, sep: string, x: string, y: string)
    requires 0 <= m < 100 && 0 <= n < 100
    ensures Less(Pad(m, 2) + (sep + x), Pad(n, 2) + (sep + y)) <==> m < n || (m == n && Less(x, y))
  {
    assert Pow10(2) == 100;
    LessField(m, n, 2, sep, x, y);
  }

  predicate Fits(s: Stamp) {
    0 <= s.year <= 9999 && 0 <= s.month < 100 && 0 <= s.day < 100
    && 0 <= s.hour < 24 && 0 <= s.min < 60 && 0 <= s.sec < 60
  }

  lemma TimeTextsCompare(a: Stamp, b: Stamp)
    requires Fits(a) && Fits(b)
    ensures Less(HourText(a), HourText(b)) <==>
              3600 * a.hour + 60 * a.min + a.sec < 3600 * b.hour + 60 * b.min + b.sec
  {
    LessField2(a.sec, b.sec, "Z", "", "");
    LessField2(a.min, b.min, ":", SecText(a), SecText(b));
    LessField2(a.hour, b.hour, ":", MinText(a), MinText(b));
  }

  lemma TextsCompare(a: Stamp, b: Stamp)
    requires Fits(a) && Fits(b)
    ensures Less(FormatStamp(a), FormatStamp(b)) <==>
              a.year < b.year || (a.year == b.year && (a.month < b.month || (a.month == b.month
              && (a.day < b.day || (a.day == b.day && Less(HourText(a), HourText(b)))))))
  {
    LessField2(a.day, b.day, "T", HourText(a), HourText(b));
    LessField2(a.month, b.month, "-", DayText(a), DayText(b));
    assert Pow10(4) == 10_000;
    LessField(a.year, b.year, 4, "-", MonthText(a), MonthText(b));
  }

  /** For years 0 to 9999, sorting printed timestamps as strings sorts them by time. */
  lemma StringOrderIsTimeOrder(t: i64, u: i64)
    requires 0 <= CivilU32(t / 86_400).year <= 9999 && 0 <= CivilU32(u / 86_400).year <= 9999
    ensures Less(FormatRfc3339(t), FormatRfc3339(u)) <==> t < u
  {
    StampIsOf(t);
    StampIsOf(u);
    StampsCompare(t, u, StampFromUnix(t), StampFromUnix(u), CivilU32(t / 86_400), CivilU32(u / 86_400));
  }

  /** The stamp `s` of time `t`, whose date is `c`. */
  ghost predicate StampOf(t: int, s: Stamp, c: Date) {
    && Valid(c) && 0 <= c.year <= 9999
    && s.year == c.year && s.month == c.month && s.day == c.day
    && 0 <= s.hour < 24 && 0 <= s.min < 60 && 0 <= s.sec < 60
    && t == 86_400 * DayNumber(c) + (3600 * s.hour + 60 * s.min + s.sec)
  }

  lemma StampIsOf(t: i64)
    requires 0 <= CivilU32(t / 86_400).year <= 9999
    ensures StampOf(t, StampFromUnix(t), CivilU32(t / 86_400))
  {
    CivilIsCorrect(t / 86_400);
    CopiesAgree(t / 86_400);
    TimeOfDay(t);
    SmallYearsAreKept(CivilU32(t / 86_400).year);
  }

  lemma SmallYearsAreKept(y: int)
    requires I32_MIN <= y <= I32_MAX
    ensures AsI32(y) == y
  {
  }

  lemma SecondsOrder(m: int, n: int, x: int, y: int)
    requires 0 <= x < 86_400 && 0 <= y < 86_400
    ensures 86_400 * m + x < 86_400 * n + y <==> m < n || (m == n && x < y)
  {
  }

  lemma StampsCompare(t: int, u: int, a: Stamp, b: Stamp, c: Date, d: Date)
    requires StampOf(t, a, c) && StampOf(u, b, d)
    ensures Less(FormatStamp(a), FormatStamp(b)) <==> t < u
  {
    TextsCompare(a, b);
    TimeTextsCompare(a, b);
    DayNumberIsInjective(c, d);
    SecondsOrder(DayNumber(c), DayNumber(d), 3600 * a.hour + 60 * a.min + a.sec, 3600 * b.hour + 60 * b.min + b.sec);
  }

  /** The printed date of a day starts the printed timestamps of its seconds, as long as the
      year fits the `i32`. */
  lemma DateStartsTheStamp(ts: i64)
    requires FIRST_STAMP <= ts < END_STAMP
    ensures FormatRfc3339(ts) == FormatDate(ts / 86_400) + ("T" + HourText(StampFromUnix(ts)))
  {
    StampRebuildsSeconds(ts);
    var s := StampFromUnix(ts);
    Regrouped(Pad(s.month, 2), Pad(s.day, 2), "T" + HourText(s));
    Regrouped(Pad(s.year, 4), Pad(s.month, 2) + ("-" + Pad(s.day, 2)), "T" + HourText(s));
  }

  lemma Regrouped(a: string, b: string, c: string)
    ensures (a + ("-" + b)) + c == a + ("-" + (b + c))
  {
  }

  /** For years 0 to 9999 the printed dates sort as strings by day. */
  lemma DateOrderIsDayOrder(y: i64, z: i64)
    requires y <= LAST_DAY && z <= LAST_DAY
    requires 0 <= CivilU32(y).year <= 9999 && 0 <= CivilU32(z).year <= 9999
    ensures Less(FormatDate(y), FormatDate(z)) <==> y < z
  {
    CivilIsCorrect(y);
    CivilIsCorrect(z);
    DateTextsCompare(CivilU32(y), CivilU32(z));
    DayNumberIsInjective(CivilU32(y), CivilU32(z));
  }

  lemma DateTextsCompare(c: Date, d: Date)
    requires Valid(c) && Valid(d) && 0 <= c.year <= 9999 && 0 <= d.year <= 9999
    ensures Less(DateText(c), DateText(d)) <==> Before(c, d)
  {
    assert Pow10(2) == 100 && Pow10(4) == 10_000;
    LessPadded(c.day, d.day, 2);
    LessField2(c.month, d.month, "-", Pad(c.day, 2), Pad(d.day, 2));
    LessField(c.year, d.year, 4, "-", Pad(c.month, 2) + ("-" + Pad(c.day, 2)), Pad(d.month, 2) + ("-" + Pad(d.day, 2)));
  }

  // ----------------------------------------------------------- reading back

  predicate AllDigits(s: string) {
    forall k :: 0 <= k < |s| ==> '0' <= s[k] <= '9'
  }

  /** The number a decimal text stands for. */
  function ReadNat(s: string): nat
    requires AllDigits(s)
  {
    if s == "" then 0
    else
      var n := |s| - 1;
      assert '0' <= s[n] <= '9';
      10 * ReadNat(s[..n]) + (s[n] as nat - '0' as nat)
  }

  /** `{n:0w}` is at least `w` digits that read as `n`, with no zero in front beyond them. */
  lemma {:induction false} PadReadsBack(n: nat, w: nat)
    ensures var s := PadNat(n, w);
            && AllDigits(s) && ReadNat(s) == n && |s| >= w && s != ""
            && (|s| > w && |s| > 1 ==> s[0] != '0')
    decreases n + w
  {
    if n >= 10 || w > 1 {
      var v := if w > 0 then w - 1 else 0;
      PadReadsBack(n / 10, v);
      OneMoreDigit(PadNat(n / 10, v), n % 10);
    } else {
      OneMoreDigit("", n);
      assert PadNat(n, w) == "" + [DigitChar(n)];
    }
  }

  lemma OneMoreDigit(s: string, d: nat)
    requires AllDigits(s) && d < 10
    ensures AllDigits(s + [DigitChar(d)]) && ReadNat(s + [DigitChar(d)]) == 10 * ReadNat(s) + d
  {
    var t := s + [DigitChar(d)];
    assert t[..|s|] == s && t[|s|] == DigitChar(d);
  }

  /** A signed one has its sign in front, which takes one of the places. */
  lemma SignedReadsBack(n: int, w: nat)
    ensures var s := Pad(n, w);
            if n >= 0 then AllDigits(s) && ReadNat(s) == n
            else s[0] == '-' && AllDigits(s[1..]) && ReadNat(s[1..]) == -n
    ensures |Pad(n, w)| >= w
  {
    if n >= 0 { PadReadsBack(n, w); } else { PadReadsBack(-n, if w > 0 then w - 1 else 0); }
  }

  lemma FixedWidth(n: nat, w: nat)
    requires 0 < w && n < Pow10(w)
    ensures |Pad(n, w)| == w && AllDigits(Pad(n, w)) && ReadNat(Pad(n, w)) == n
  {
    PadReadsBack(n, w);
    LessPadded(n, n, w);
  }

  /** Characters `a` to `b` are digits that read as `n`. */
  predicate Reads(s: string, a: nat, b: nat, n: int) {
    a <= b <= |s| && AllDigits(s[a..b]) && ReadNat(s[a..b]) == n
  }

  /** The printed date of a day in the years 0 to 9999 is its date, as `yyyy-mm-dd`. */
  lemma DateReadsBack(days: i64, s: string)
    requires days <= LAST_DAY && 0 <= CivilU32(days).year <= 9999 && s == FormatDate(days)
    ensures |s| == 10 && s[4] == '-' && s[7] == '-'
    ensures exists d: Date :: Valid(d) && DayNumber(d) == days
                              && Reads(s, 0, 4, d.year) && Reads(s, 5, 7, d.month) && Reads(s, 8, 10, d.day)
  {
    var d := CivilU32(days);
    CivilIsCorrect(days);
    assert Pow10(2) == 100 && Pow10(4) == 10_000;
    FixedWidth(d.year, 4);
    FixedWidth(d.month, 2);
    FixedWidth(d.day, 2);
    var y, m, e := Pad(d.year, 4), Pad(d.month, 2), Pad(d.day, 2);
    assert s == y + ("-" + (m + ("-" + e)));
    assert s[0..4] == y && s[5..7] == m && s[8..10] == e;
  }

  /** The printed timestamp of a second in the years 0 to 9999 has its punctuation in place,
      and the six numbers between it rebuild the second. */
  lemma StampReadsBack(t: i64, s: string)
    requires 0 <= CivilU32(t / 86_400).year <= 9999 && s == FormatRfc3339(t)
    ensures |s| == 20 && s[4] == '-' && s[7] == '-' && s[10] == 'T' && s[13] == ':' && s[16] == ':' && s[19] == 'Z'
    ensures exists d: Date, hour: nat, min: nat, sec: nat ::
              && Valid(d) && hour < 24 && min < 60 && sec < 60
              && Reads(s, 0, 4, d.year) && Reads(s, 5, 7, d.month) && Reads(s, 8, 10, d.day)
              && Reads(s, 11, 13, hour) && Reads(s, 14, 16, min) && Reads(s, 17, 19, sec)
              && t == 86_400 * DayNumber(d) + 3600 * hour + 60 * min + sec
  {
    StampIsOf(t);
    StampText(StampFromUnix(t), s);
    var x := StampFromUnix(t);
    var d := CivilU32(t / 86_400);
    assert Reads(s, 0, 4, d.year) && Reads(s, 11, 13, x.hour) && Reads(s, 14, 16, x.min) && Reads(s, 17, 19, x.sec);
  }

  lemma StampText(x: Stamp, s: string)
    requires Fits(x) && s == FormatStamp(x)
    ensures StampShape(s, x)
  {
    assert Pow10(4) == 10_000;
    FixedWidth(x.year, 4);
    var y, rest := Pad(x.year, 4), MonthText(x);
    assert s == y + ("-" + rest) && s[0..4] == y && s[5..] == rest && s[4] == '-';
    MonthReads(x);
    MonthBehind(s, rest, x);
  }

  predicate StampShape(s: string, x: Stamp) {
    && |s| == 20 && s[4] == '-' && s[7] == '-' && s[10] == 'T' && s[13] == ':' && s[16] == ':' && s[19] == 'Z'
    && Reads(s, 0, 4, x.year) && Reads(s, 5, 7, x.month) && Reads(s, 8, 10, x.day)
    && Reads(s, 11, 13, x.hour) && Reads(s, 14, 16, x.min) && Reads(s, 17, 19, x.sec)
  }

  predicate MonthShape(s: string, x: Stamp) {
    |s| == 15 && s[2] == '-' && Reads(s, 0, 2, x.month) && DayShape(s[3..], x)
  }

  predicate DayShape(s: string, x: Stamp) {
    |s| == 12 && s[2] == 'T' && Reads(s, 0, 2, x.day) && HourShape(s[3..], x)
  }

  predicate HourShape(s: string, x: Stamp) {
    |s| == 9 && s[2] == ':' && Reads(s, 0, 2, x.hour) && MinShape(s[3..], x)
  }

  predicate MinShape(s: string, x: Stamp) {
    |s| == 6 && s[2] == ':' && Reads(s, 0, 2, x.min) && SecShape(s[3..], x)
  }

  predicate SecShape(s: string, x: Stamp) {
    |s| == 3 && s[2] == 'Z' && Reads(s, 0, 2, x.sec)
  }

  /** A two-digit field in front of a separator and a text. */
  lemma FieldReads(n: int, sep: char, rest: string)
    requires 0 <= n < 100
    ensures var s := Pad(n, 2) + ([sep] + rest);
            |s| == 3 + |rest| && Reads(s, 0, 2, n) && s[2] == sep && s[3..] == rest
  {
    assert Pow10(2) == 100;
    FixedWidth(n, 2);
    assert (Pad(n, 2) + ([sep] + rest))[0..2] == Pad(n, 2);
  }

  lemma HourReads(x: Stamp)
    requires Fits(x)
    ensures HourShape(HourText(x), x)
  {
    FieldReads(x.sec, 'Z', "");
    FieldReads(x.min, ':', SecText(x));
    FieldReads(x.hour, ':', MinText(x));
  }

  lemma MonthReads(x: Stamp)
    requires Fits(x)
    ensures MonthShape(MonthText(x), x)
  {
    HourReads(x);
    FieldReads(x.day, 'T', HourText(x));
    FieldReads(x.month, '-', DayText(x));
  }

  /** What part of a text reads as, and its characters, are found in the whole. */
  lemma Within(s: string, at: nat, part: string, a: nat, b: nat, n: int)
    requires at <= |s| && s[at..] == part && Reads(part, a, b, n)
    ensures Reads(s, at + a, at + b, n)
  {
    assert s[at + a..at + b] == part[a..b];
  }

  lemma MonthBehind(s: string, m: string, x: Stamp)
    requires |s| == 20 && s[5..] == m && s[4] == '-' && Reads(s, 0, 4, x.year) && MonthShape(m, x)
    ensures StampShape(s, x)
  {
    var d := m[3..];
    Within(s, 5, m, 0, 2, x.month);
    assert s[8..] == d && s[7] == m[2];
    Within(s, 8, d, 0, 2, x.day);
    assert s[10] == d[2];
    HourBehind(s, d[3..], x);
  }

  lemma HourBehind(s: string, h: string, x: Stamp)
    requires |s| == 20 && s[11..] == h && HourShape(h, x)
    ensures s[13] == ':' && s[16] == ':' && s[19] == 'Z'
    ensures Reads(s, 11, 13, x.hour) && Reads(s, 14, 16, x.min) && Reads(s, 17, 19, x.sec)
  {
    var m := h[3..];
    var e := m[3..];
    assert s[14..] == m && s[17..] == e && s[13] == h[2] && s[16] == m[2] && s[19] == e[2];
    Within(s, 11, h, 0, 2, x.hour);
    Within(s, 14, m, 0, 2, x.min);
    Within(s, 17, e, 0, 2, x.sec);
  }
}

/**
 The closed-form calendar arithmetic of Iso8601, and the day-by-day Gregorian calendar it
 has to agree with.
 */
module Iso8601Calendar {
  import opened Words

  datatype Date = Date(year: int, month: int, day: int)

  datatype Civil = Civil(year: int, month: Byte, day: Byte, hour: Byte, minute: Byte, second: Byte)

  // ------------------------------------------------------- as the source computes it

  /** C++ division, which rounds toward zero. */
  function TruncDiv(a: int, b: nat): int
    requires b > 0
  {
    if a >= 0 then a / b else -(-a / b)
  }

  function U8(x: int): Byte { if 0 <= x < 256 then x else x % 256 }

  /** A value as a signed 32-bit word. */
  function S32(x: int): int {
    if -0x8000_0000 <= x < 0x8000_0000 then x else (x + 0x8000_0000) % WORD - 0x8000_0000
  }

  /** Months counted from March: `m + (m > 2 ? -3 : 9)`. */
  function FromMarch(m: nat): int { m + if m > 2 then -3 else 9 }

  function DaysFromCivil(year: int, m: nat, d: nat): int {
    var y := year - if m <= 2 then 1 else 0;
    var era := TruncDiv(if y >= 0 then y else y - 399, 400);
    var yoe := U32(y - era * 400);
    var doy := U32((153 * FromMarch(m) + 2) / 5 + d - 1);
    var doe := U32(yoe * 365 + yoe / 4 - yoe / 100 + doy);
    era * 146097 + doe - 719468
  }

  /** The year within its 400-year era, from the day within the era. */
  function YearOfEra(doe: nat): int { (doe - doe / 1460 + doe / 36524 - doe / 146096) / 365 }

  function CivilFromDays(days: int): Date {
    var z := days + 719468;
    var era := TruncDiv(if z >= 0 then z else z - 146096, 146097);
    CivilOfEra(era, U32(z - era * 146097))
  }

  /** The part of `civilFromDays` that looks at one era only. */
  function CivilOfEra(era: int, doe: nat): Date {
    var yoe := YearOfEra(doe);
    var doy := doe - (365 * yoe + yoe / 4 - yoe / 100);
    var mp := (5 * doy + 2) / 153;
    var d := doy - (153 * mp + 2) / 5 + 1;
    var m := mp + if mp < 10 then 3 else -9;
    Date(yoe + era * 400 + if m <= 2 then 1 else 0, m, d)
  }

  function ToEpoch(c: Civil): int {
    DaysFromCivil(c.year, c.month, c.day) * 86400 + c.hour * 3600 + c.minute * 60 + c.second
  }

  /** `fromEpoch`, where it answers at all: from 1970 on. */
  function FromEpoch(epoch: nat): Civil {
    var Date(y, m, d) := CivilFromDays(epoch / 86400);
    var rem := epoch % 86400;
    Civil(S32(y), U8(m), U8(d), rem / 3600, rem % 3600 / 60, rem % 3600 % 60)
  }

  // -------------------------------------------------------------- the naive calendar

  predicate Leap(y: int) { y % 4 == 0 && (y % 100 != 0 || y % 400 == 0) }

  function YearLength(y: int): nat { if Leap(y) then 366 else 365 }

  function MonthLength(y: int, m: int): nat {
    if m == 2 then (if Leap(y) then 29 else 28)
    else if m == 4 || m == 6 || m == 9 || m == 11 then 30 else 31
  }

  function DaysBeforeYear(y: int): nat
    decreases y - 1970
  {
    if y <= 1970 then 0 else DaysBeforeYear(y - 1) + YearLength(y - 1)
  }

  function DaysBeforeMonth(y: int, m: nat): nat {
    if m <= 1 then 0 else DaysBeforeMonth(y, m - 1) + MonthLength(y, m - 1)
  }

  predicate ValidDate(y: int, m: int, d: int) { 1 <= m <= 12 && 1 <= d <= MonthLength(y, m) }

  predicate ValidCivil(c: Civil) {
    ValidDate(c.year, c.month, c.day) && c.hour < 24 && c.minute < 60 && c.second < 60
  }

  /** Days since 1970-01-01, counted one year and one month at a time. */
  function CountedDays(y: int, m: nat, d: nat): int { DaysBeforeYear(y) + DaysBeforeMonth(y, m) + d - 1 }

  // ------------------------------------------------------------------- agreement

  lemma TruncIsFloor(a: int, b: nat)
    requires b > 0
    ensures TruncDiv(if a >= 0 then a else a - (b - 1), b) == a / b
  {
    if a < 0 {
      var q, r := a / b, a % b;
      assert a == b * q + r;
      var n := -(a - (b - 1));
      assert n == b * -q + (b - 1 - r);
      DivisionUnique(n, -q, b - 1 - r, b);
    }
  }

  /** Days from 0000-03-01 to the start of March-based year y. */
  function EraDays(y: int): int { 365 * y + y / 4 - y / 100 + y / 400 }

  /** The quotients of a year by 4, 100 and 400, from its place in an era. */
  lemma EraQuotients(era: int, yoe: int)
    requires 0 <= yoe < 400
    ensures var y := era * 400 + yoe;
      y / 400 == era && y % 400 == yoe && y / 4 == era * 100 + yoe / 4 && y / 100 == era * 4 + yoe / 100
  {
    var y := era * 400 + yoe;
    DivisionUnique(y, era, yoe, 400);
    DivisionUnique(y, era * 100 + yoe / 4, yoe % 4, 4);
    DivisionUnique(y, era * 4 + yoe / 100, yoe % 100, 100);
  }

  lemma ClosedForm(year: int, m: nat, d: nat)
    requires 1 <= m <= 12 && 1 <= d <= 31
    ensures var y := year - if m <= 2 then 1 else 0;
      DaysFromCivil(year, m, d) == EraDays(y) + (153 * FromMarch(m) + 2) / 5 + d - 1 - 719468
  {
    var y := year - if m <= 2 then 1 else 0;
    TruncIsFloor(y, 400);
    var era, yoe := y / 400, y % 400;
    EraQuotients(era, yoe);
  }

  lemma YearGoesBy(y: int)
    ensures EraDays(y) - EraDays(y - 1) == YearLength(y)
  {
    FloorStep(y, 4);
    FloorStep(y, 100);
    FloorStep(y, 400);
  }

  lemma FloorStep(y: int, n: nat)
    requires n > 1
    ensures y / n - (y - 1) / n == if y % n == 0 then 1 else 0
  {
    var q, r := y / n, y % n;
    assert y == n * q + r;
    if r == 0 {
      assert n * (q - 1) == n * q - n;
      DivisionUnique(y - 1, q - 1, n - 1, n);
    } else {
      DivisionUnique(y - 1, q, r - 1, n);
    }
  }

  lemma {:induction false} YearsAgree(y: int)
    requires y >= 1970
    ensures DaysBeforeYear(y) == EraDays(y - 1) + 306 - 719468
    decreases y - 1970
  {
    if y > 1970 {
      YearsAgree(y - 1);
      YearGoesBy(y - 1);
    }
  }

  lemma {:induction false} MonthsAgree(y: int, m: nat)
    requires 1 <= m <= 12
    ensures DaysBeforeMonth(y, m) ==
      (153 * FromMarch(m) + 2) / 5 + if m <= 2 then -306 else YearLength(y) - 306
  {
    if m > 1 { MonthsAgree(y, m - 1); }
  }

  /** The closed form is the naive count, for every date from 1970 on. */
  lemma ClosedFormCounts(y: int, m: nat, d: nat)
    requires y >= 1970 && ValidDate(y, m, d)
    ensures DaysFromCivil(y, m, d) == CountedDays(y, m, d)
  {
    ClosedForm(y, m, d);
    YearsAgree(y);
    MonthsAgree(y, m);
    YearGoesBy(y);
  }

  // --------------------------------------------------------------------- inverse

  /** Century, four-year cycle, year and day within an era, March-based. The year may have a
      366th day only when the next January-based year is a leap year. */
  predicate EraParts(c: int, k: int, r: int, doy: int) {
    && 0 <= c <= 3 && 0 <= k <= 24 && 0 <= r <= 3 && 0 <= doy <= 365
    && (doy == 365 ==> r == 3 && (k < 24 || c == 3))
  }

  lemma YearOfEraIsExact(c: int, k: int, r: int, doy: int)
    requires EraParts(c, k, r, doy)
    ensures var yoe := 100 * c + 4 * k + r;
      && yoe / 4 == 25 * c + k && yoe / 100 == c
      && 0 <= 36524 * c + 1461 * k + 365 * r + doy < 146097
      && YearOfEra(36524 * c + 1461 * k + 365 * r + doy) == yoe
  {
    var yoe := 100 * c + 4 * k + r;
    DivisionUnique(yoe, 25 * c + k, r, 4);
    DivisionUnique(yoe, c, 4 * k + r, 100);
    var doe := 36524 * c + 1461 * k + 365 * r + doy;
    var x := 24 * c + k + 365 * r + doy;
    var late := if x < 1460 then 0 else 1;
    var last := if doe == 146096 then 1 else 0;
    assert doe / 1460 == 25 * c + k + late by { DivisionUnique(doe, 25 * c + k + late, x - 1460 * late, 1460); }
    assert doe / 36524 == c + last by { DivisionUnique(doe, c + last, doe - 36524 * (c + last), 36524); }
    assert doe / 146096 == last by { DivisionUnique(doe, last, doe - 146096 * last, 146096); }
    DivisionUnique(365 * yoe + doy - late, yoe, doy - late, 365);
  }

  lemma PartsOfEra(doe: nat) returns (c: int, k: int, r: int, doy: int)
    requires doe < 146097
    ensures EraParts(c, k, r, doy) && doe == 36524 * c + 1461 * k + 365 * r + doy
  {
    c := if doe / 36524 < 3 then doe / 36524 else 3;
    var a := doe - 36524 * c;
    k := a / 1461;
    var b := a - 1461 * k;
    r := if b / 365 < 3 then b / 365 else 3;
    doy := b - 365 * r;
  }

  /** Months of a March-based year of 366 days. */
  lemma MonthOfYear(doy: int)
    requires 0 <= doy <= 365
    ensures var mp := (5 * doy + 2) / 153; var d := doy - (153 * mp + 2) / 5 + 1;
      && 0 <= mp <= 11 && 1 <= d <= 31
      && (mp == 1 || mp == 3 || mp == 6 || mp == 8 ==> d <= 30)
      && (mp == 11 ==> d == doy - 336 <= 29)
  {}

  lemma MonthIsExact(mp: int, d: int)
    requires 0 <= mp <= 11 && 1 <= d <= 31
    requires (mp == 1 || mp == 3 || mp == 6 || mp == 8 ==> d <= 30) && (mp == 11 ==> d <= 29)
    ensures var doy := (153 * mp + 2) / 5 + d - 1; 0 <= doy <= 365 && (5 * doy + 2) / 153 == mp
  {}

  /** A March-based year has a 366th day exactly before a leap year. */
  lemma LongYear(era: int, c: int, k: int, r: int)
    requires 0 <= c <= 3 && 0 <= k <= 24 && 0 <= r <= 3
    ensures Leap(era * 400 + 100 * c + 4 * k + r + 1) <==> r == 3 && (k < 24 || c == 3)
  {
    var y := era * 400 + 100 * c + 4 * k + r + 1;
    if r < 3 {
      DivisionUnique(y, era * 100 + 25 * c + k, r + 1, 4);
    } else {
      DivisionUnique(y, era * 100 + 25 * c + k + 1, 0, 4);
      if k < 24 {
        DivisionUnique(y, era * 4 + c, 4 * k + 4, 100);
      } else {
        DivisionUnique(y, era * 4 + c + 1, 0, 100);
        if c < 3 { DivisionUnique(y, era, 100 * c + 100, 400); } else { DivisionUnique(y, era + 1, 0, 400); }
      }
    }
  }

  lemma EraStart(era: int, c: int, k: int, r: int)
    requires 0 <= c <= 3 && 0 <= k <= 24 && 0 <= r <= 3
    ensures EraDays(era * 400 + 100 * c + 4 * k + r) == era * 146097 + 36524 * c + 1461 * k + 365 * r
  {
    var yoe := 100 * c + 4 * k + r;
    EraQuotients(era, yoe);
    DivisionUnique(yoe, 25 * c + k, r, 4);
    DivisionUnique(yoe, c, 4 * k + r, 100);
  }

  /** The date at a place in an era. */
  function DateAt(era: int, c: int, k: int, r: int, doy: int): Date {
    var mp := (5 * doy + 2) / 153;
    var m := mp + if mp < 10 then 3 else -9;
    Date(era * 400 + 100 * c + 4 * k + r + if m <= 2 then 1 else 0, m, doy - (153 * mp + 2) / 5 + 1)
  }

  /** What the source computes from a day number, given where the day lies in its era. */
  lemma CivilFromParts(z: int, era: int, c: int, k: int, r: int, doy: int)
    requires EraParts(c, k, r, doy)
    requires z + 719468 == era * 146097 + 36524 * c + 1461 * k + 365 * r + doy
    ensures CivilFromDays(z) == DateAt(era, c, k, r, doy)
  {
    var doe := 36524 * c + 1461 * k + 365 * r + doy;
    YearOfEraIsExact(c, k, r, doy);
    EraOfDay(z, era, doe);
    CivilInEra(era, c, k, r, doy);
  }

  lemma EraOfDay(z: int, era: int, doe: nat)
    requires z + 719468 == era * 146097 + doe && doe < 146097
    ensures var s := z + 719468;
      TruncDiv(if s >= 0 then s else s - 146096, 146097) == era && U32(s - era * 146097) == doe
  {
    var s := z + 719468;
    DivisionUnique(s, era, doe, 146097);
    TruncIsFloor(s, 146097);
  }

  lemma CivilInEra(era: int, c: int, k: int, r: int, doy: int)
    requires EraParts(c, k, r, doy)
    ensures 36524 * c + 1461 * k + 365 * r + doy >= 0
    ensures CivilOfEra(era, 36524 * c + 1461 * k + 365 * r + doy) == DateAt(era, c, k, r, doy)
  {
    YearOfEraIsExact(c, k, r, doy);
  }

  /** Every day number is a valid date, and that date has that day number. */
  lemma DaysRoundTrip(z: int)
    ensures var t := CivilFromDays(z); ValidDate(t.year, t.month, t.day) && DaysFromCivil(t.year, t.month, t.day) == z
  {
    var era, doe := (z + 719468) / 146097, (z + 719468) % 146097;
    var c, k, r, doy := PartsOfEra(doe);
    DateOfParts(z, era, c, k, r, doy);
  }

  lemma DateOfParts(z: int, era: int, c: int, k: int, r: int, doy: int)
    requires EraParts(c, k, r, doy)
    requires z + 719468 == era * 146097 + 36524 * c + 1461 * k + 365 * r + doy
    ensures var t := CivilFromDays(z); ValidDate(t.year, t.month, t.day) && DaysFromCivil(t.year, t.month, t.day) == z
  {
    CivilFromParts(z, era, c, k, r, doy);
    PartsGiveDate(era, c, k, r, doy);
  }

  lemma PartsGiveDate(era: int, c: int, k: int, r: int, doy: int)
    requires EraParts(c, k, r, doy)
    ensures var t := DateAt(era, c, k, r, doy);
      && ValidDate(t.year, t.month, t.day)
      && DaysFromCivil(t.year, t.month, t.day) == era * 146097 + 36524 * c + 1461 * k + 365 * r + doy - 719468
  {
    var t := DateAt(era, c, k, r, doy);
    MonthOfYear(doy);
    LastDayExists(era, c, k, r, doy);
    ClosedForm(t.year, t.month, t.day);
    EraStart(era, c, k, r);
  }

  lemma LastDayExists(era: int, c: int, k: int, r: int, doy: int)
    requires EraParts(c, k, r, doy)
    ensures var t := DateAt(era, c, k, r, doy); ValidDate(t.year, t.month, t.day)
  {
    MonthOfYear(doy);
    LongYear(era, c, k, r);
  }

  /** Where a date lies in its era. */
  lemma PartsOfDate(y: int, m: nat, d: nat) returns (era: int, c: int, k: int, r: int, doy: int)
    requires ValidDate(y, m, d)
    ensures EraParts(c, k, r, doy)
    ensures y == era * 400 + 100 * c + 4 * k + r + if m <= 2 then 1 else 0
    ensures doy == (153 * FromMarch(m) + 2) / 5 + d - 1 && (5 * doy + 2) / 153 == FromMarch(m)
  {
    var yr := y - if m <= 2 then 1 else 0;
    era, c, k, r := yr / 400, yr % 400 / 100, yr % 100 / 4, yr % 4;
    YearParts(yr);
    doy := (153 * FromMarch(m) + 2) / 5 + d - 1;
    LongYear(era, c, k, r);
    MonthIsExact(FromMarch(m), d);
  }

  /** The other direction: a valid date survives being turned into a day number. */
  lemma DateRoundTrip(y: int, m: nat, d: nat)
    requires ValidDate(y, m, d)
    ensures CivilFromDays(DaysFromCivil(y, m, d)) == Date(y, m, d)
  {
    var era, c, k, r, doy := PartsOfDate(y, m, d);
    var z := era * 146097 + 36524 * c + 1461 * k + 365 * r + doy - 719468;
    assert DaysFromCivil(y, m, d) == z by {
      ClosedForm(y, m, d);
      EraStart(era, c, k, r);
    }
    CivilFromParts(z, era, c, k, r, doy);
  }

  lemma YearParts(y: int)
    ensures var c, k, r := y % 400 / 100, y % 100 / 4, y % 4;
      0 <= c <= 3 && 0 <= k <= 24 && 0 <= r <= 3 && y == y / 400 * 400 + 100 * c + 4 * k + r
  {
    var era, yoe := y / 400, y % 400;
    var c, rest := yoe / 100, yoe % 100;
    var k, r := rest / 4, rest % 4;
    DivisionUnique(y, era * 4 + c, rest, 100);
    DivisionUnique(y, era * 100 + 25 * c + k, r, 4);
  }

  // ------------------------------------------------------------------ epoch seconds

  lemma TimeOfDay(rem: nat)
    requires rem < 86400
    ensures var h, m, s := rem / 3600, rem % 3600 / 60, rem % 3600 % 60;
      h < 24 && m < 60 && s < 60 && h * 3600 + m * 60 + s == rem
  {}

  lemma AssembledTime(y: int, m: int, d: int, days: int, rem: nat)
    requires ValidDate(y, m, d) && DaysFromCivil(y, m, d) == days && rem < 86400
    ensures var c := Civil(y, m, d, rem / 3600, rem % 3600 / 60, rem % 3600 % 60);
      ValidCivil(c) && ToEpoch(c) == days * 86400 + rem
  {
    TimeOfDay(rem);
  }

  /** 2147483648-01-01, the first day whose year does not fit the source's `int32_t`. */
  const FIRST_LOST_DAY: nat := 784351576777

  lemma EraDaysGrow(a: int, b: int)
    requires a <= b
    ensures EraDays(b) - EraDays(a) >= 365 * (b - a)
  {
    var u, v := a / 4, b / 4;
    assert a / 100 == u / 25 && b / 100 == v / 25;
    assert v - v / 25 >= u - u / 25;
  }

  lemma YearFits(z: int)
    ensures CivilFromDays(z).year < 0x8000_0000 <==> z < FIRST_LOST_DAY
  {
    DaysRoundTrip(z);
    var Date(y, m, d) := CivilFromDays(z);
    ClosedForm(y, m, d);
    var yr := if m <= 2 then y - 1 else y;
    if yr < 0x7fff_ffff { EraDaysGrow(yr, 0x7fff_ffff); } else { EraDaysGrow(0x7fff_ffff, yr); }
  }

  /** A year that wraps is some other year, with its days in another place. */
  lemma WrappedYearMoves(y: int, m: nat, d: nat)
    requires 1 <= m <= 12 && 1 <= d <= 31 && S32(y) != y
    ensures DaysFromCivil(S32(y), m, d) != DaysFromCivil(y, m, d)
  {
    ClosedForm(y, m, d);
    ClosedForm(S32(y), m, d);
    var back := if m <= 2 then 1 else 0;
    if y < S32(y) { EraDaysGrow(y - back, S32(y) - back); } else { EraDaysGrow(S32(y) - back, y - back); }
  }

  lemma YearIsPositive(z: nat)
    ensures CivilFromDays(z).year > 0
  {
    DaysRoundTrip(z);
    var Date(y, m, d) := CivilFromDays(z);
    ClosedForm(y, m, d);
    var yr := if m <= 2 then y - 1 else y;
    if yr < 0 { EraDaysGrow(yr, 0); }
  }

  /** Seconds to fields and back is the identity exactly while the year fits its 32-bit field. */
  lemma EpochRoundTrip(epoch: nat)
    ensures ToEpoch(FromEpoch(epoch)) == epoch <==> epoch < FIRST_LOST_DAY * 86400
    ensures epoch < FIRST_LOST_DAY * 86400 ==> ValidCivil(FromEpoch(epoch))
  {
    var days, rem := epoch / 86400, epoch % 86400;
    var Date(y, m, d) := CivilFromDays(days);
    assert ValidDate(y, m, d) && DaysFromCivil(y, m, d) == days by { DaysRoundTrip(days); }
    YearFits(days);
    YearIsPositive(days);
    assert FromEpoch(epoch) == Civil(S32(y), m, d, rem / 3600, rem % 3600 / 60, rem % 3600 % 60);
    TimeOfDay(rem);
    if y < 0x8000_0000 {
      AssembledTime(y, m, d, days, rem);
    } else {
      WrappedYearMoves(y, m, d);
    }
  }

  lemma CivilRoundTrip(c: Civil)
    requires ValidCivil(c) && 1970 <= c.year < 0x8000_0000
    ensures ToEpoch(c) >= 0 && FromEpoch(ToEpoch(c)) == c
  {
    DaysArePositive(c);
    DateRoundTrip(c.year, c.month, c.day);
    FieldsOfEpoch(DaysFromCivil(c.year, c.month, c.day), c);
  }

  lemma DaysArePositive(c: Civil)
    requires ValidCivil(c) && c.year >= 1970
    ensures DaysFromCivil(c.year, c.month, c.day) >= 0
  {
    ClosedFormCounts(c.year, c.month, c.day);
  }

  lemma FieldsOfEpoch(days: nat, c: Civil)
    requires ValidCivil(c) && 1970 <= c.year < 0x8000_0000 && CivilFromDays(days) == Date(c.year, c.month, c.day)
    ensures FromEpoch(days * 86400 + c.hour * 3600 + c.minute * 60 + c.second) == c
  {
    var rem := c.hour * 3600 + c.minute * 60 + c.second;
    DivisionUnique(days * 86400 + rem, days, rem, 86400);
    FieldsOfDay(c.hour, c.minute, c.second);
  }

  lemma FieldsOfDay(h: nat, m: nat, s: nat)
    requires m < 60 && s < 60
    ensures var rem := h * 3600 + m * 60 + s; rem / 3600 == h && rem % 3600 / 60 == m && rem % 3600 % 60 == s
  {
    DivisionUnique(h * 3600 + m * 60 + s, h, m * 60 + s, 3600);
    DivisionUnique(m * 60 + s, m, s, 60);
  }

  predicate Earlier(a: Civil, b: Civil) {
    a.year < b.year || (a.year == b.year && (a.month < b.month || (a.month == b.month && (a.day < b.day
      || (a.day == b.day && (a.hour < b.hour || (a.hour == b.hour && (a.minute < b.minute
      || (a.minute == b.minute && a.second < b.second)))))))))
  }

  lemma {:induction false} YearsAddUp(y: int, z: int)
    requires 1970 <= y < z
    ensures DaysBeforeYear(y) + YearLength(y) <= DaysBeforeYear(z)
    decreases z - y
  {
    if y < z - 1 { YearsAddUp(y, z - 1); }
  }

  lemma {:induction false} MonthsAddUp(y: int, m: nat, n: nat)
    requires 1 <= m < n <= 13
    ensures DaysBeforeMonth(y, m) + MonthLength(y, m) <= DaysBeforeMonth(y, n)
  {
    if m < n - 1 { MonthsAddUp(y, m, n - 1); }
  }

  lemma MonthsFillTheYear(y: int)
    ensures DaysBeforeMonth(y, 13) == YearLength(y)
  {
    MonthsAgree(y, 12);
  }

  lemma EarlierDateIsSmaller(a: Civil, b: Civil)
    requires ValidCivil(a) && ValidCivil(b) && a.year >= 1970 && b.year >= 1970
    requires Earlier(a.(hour := 0, minute := 0, second := 0), b.(hour := 0, minute := 0, second := 0))
    ensures DaysFromCivil(a.year, a.month, a.day) < DaysFromCivil(b.year, b.month, b.day)
  {
    ClosedFormCounts(a.year, a.month, a.day);
    ClosedFormCounts(b.year, b.month, b.day);
    if a.year < b.year {
      YearsAddUp(a.year, b.year);
      MonthsAddUp(a.year, a.month, 13);
      MonthsFillTheYear(a.year);
    } else if a.month < b.month {
      MonthsAddUp(a.year, a.month, b.month);
    }
  }

  /** Epoch seconds order valid times exactly as the calendar does. */
  lemma EpochPreservesOrder(a: Civil, b: Civil)
    requires ValidCivil(a) && ValidCivil(b) && a.year >= 1970 && b.year >= 1970
    ensures Earlier(a, b) <==> ToEpoch(a) < ToEpoch(b)
  {
    EarlierIsSmaller(a, b);
    EarlierIsSmaller(b, a);
  }

  lemma EarlierIsSmaller(a: Civil, b: Civil)
    requires ValidCivil(a) && ValidCivil(b) && a.year >= 1970 && b.year >= 1970
    ensures Earlier(a, b) ==> ToEpoch(a) < ToEpoch(b)
  {
    if Earlier(a.(hour := 0, minute := 0, second := 0), b.(hour := 0, minute := 0, second := 0)) {
      EarlierDateIsSmaller(a, b);
    }
  }

  /** A day past the end of its month, which the parser lets through, is read as that many days
      into the next one. */
  lemma LateDaySpillsOver(y: int, m: nat, d: nat)
    requires 1 <= m < 12 && MonthLength(y, m) < d <= 31
    ensures DaysFromCivil(y, m, d) == DaysFromCivil(y, m + 1, d - MonthLength(y, m))
  {
    var n := d - MonthLength(y, m);
    if m == 2 {
      LateFebruary(y, d);
    } else {
      ClosedForm(y, m, d);
      ClosedForm(y, m + 1, n);
      MonthGoesBy(y, m);
    }
  }

  lemma LateFebruary(y: int, d: nat)
    requires MonthLength(y, 2) < d <= 31
    ensures DaysFromCivil(y, 2, d) == DaysFromCivil(y, 3, d - MonthLength(y, 2))
  {
    ClosedForm(y, 2, d);
    ClosedForm(y, 3, d - MonthLength(y, 2));
    YearGoesBy(y);
  }

  lemma MonthGoesBy(y: int, m: nat)
    requires 1 <= m < 12 && m != 2
    ensures (153 * FromMarch(m + 1) + 2) / 5 - (153 * FromMarch(m) + 2) / 5 == MonthLength(y, m)
  {}
}

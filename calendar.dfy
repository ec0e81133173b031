module Calendar {
  const EpochShift := 719468

  predicate IsLeapYear(y: int) { y % 4 == 0 && (y % 100 != 0 || y % 400 == 0) }

  function DaysInMonth(y: int, m: int): int
    requires 1 <= m <= 12
  {
    if m == 2 then (if IsLeapYear(y) then 29 else 28)
    else if m == 4 || m == 6 || m == 9 || m == 11 then 30
    else 31
  }

  datatype Civil = Civil(year: int, month: int, day: int)
  datatype YearDay = YearDay(yoe: int, doy: int)

  predicate ValidCivil(c: Civil) { 1 <= c.month <= 12 && 1 <= c.day <= DaysInMonth(c.year, c.month) }

  function MarchMonthStart(mp: int): int requires 0 <= mp <= 11 { (153 * mp + 2) / 5 }

  function EraYearStart(yoe: int): int { 36524 * (yoe / 100) + 1461 * (yoe % 100 / 4) + 365 * (yoe % 4) }
  predicate EraYearLeap(yoe: int) { yoe % 4 == 3 && (yoe % 100 / 4 != 24 || yoe / 100 == 3) }
  function EraYearLength(yoe: int): int { if EraYearLeap(yoe) then 366 else 365 }

  function MarchYearStart(yy: int): int
  {
    yy / 400 * 146097 + EraYearStart(yy % 400) - EpochShift
  }

  function DaysFromCivil(y: int, m: int, d: int): int
    requires 1 <= m <= 12
  {
    var yy := if m <= 2 then y - 1 else y;
    MarchYearStart(yy) + MarchMonthStart(MarchIndex(m)) + d - 1
  }

  function CenturyOfEra(doe: int): int { if doe / 36524 < 4 then doe / 36524 else 3 }
  function YearOfQuad(doq: int): int { if doq / 365 < 4 then doq / 365 else 3 }

  function EraYear(doe: int): (r: YearDay)
    requires 0 <= doe < 146097
    ensures 0 <= r.yoe < 400 && 0 <= r.doy < EraYearLength(r.yoe)
    ensures doe == EraYearStart(r.yoe) + r.doy
  {
    var c := CenturyOfEra(doe);
    var doc := doe - 36524 * c;
    var q := doc / 1461;
    var doq := doc - 1461 * q;
    var r := YearOfQuad(doq);
    assert 0 <= q <= 24 && 0 <= doq < 1461;
    YoeJoin(c, q, r);
    YearDay(100 * c + 4 * q + r, doq - 365 * r)
  }

  /** Century, quadrennium and year recombine into a year of the era that splits back into them. */
  lemma YoeJoin(c: int, q: int, r: int)
    requires 0 <= c <= 3 && 0 <= q <= 24 && 0 <= r <= 3
    ensures var yoe := 100 * c + 4 * q + r;
      yoe / 100 == c && yoe % 100 / 4 == q && yoe % 4 == r
  {}

  lemma YoeParts(yoe: int)
    requires 0 <= yoe < 400
    ensures 0 <= yoe / 100 <= 3 && 0 <= yoe % 100 / 4 <= 24 && 0 <= yoe % 4 <= 3
    ensures yoe == 100 * (yoe / 100) + 4 * (yoe % 100 / 4) + yoe % 4
  {}

  lemma SplitInverse(c: int, q: int, r: int, doy: int, doe: int)
    requires 0 <= c <= 3 && 0 <= q <= 24 && 0 <= r <= 3
    requires 0 <= doy < (if r == 3 && (q != 24 || c == 3) then 366 else 365)
    requires doe == 36524 * c + 1461 * q + 365 * r + doy
    ensures CenturyOfEra(doe) == c
    ensures (doe - 36524 * c) / 1461 == q
    ensures YearOfQuad(doe - 36524 * c - 1461 * q) == r
    ensures doe - 36524 * c - 1461 * q - 365 * r == doy
  {
    assert 0 <= 365 * r + doy < (if q == 24 && c != 3 then 1460 else 1461);
    assert 0 <= 1461 * q + 365 * r + doy < (if c == 3 then 36525 else 36524);
  }

  lemma EraYearUnique(yoe: int, doy: int, doe: int)
    requires 0 <= yoe < 400 && 0 <= doy < EraYearLength(yoe)
    requires doe == EraYearStart(yoe) + doy
    ensures EraYear(doe) == YearDay(yoe, doy)
  {
    YoeParts(yoe);
    SplitInverse(yoe / 100, yoe % 100 / 4, yoe % 4, doy, doe);
  }

  lemma Mod4(x: int, k: int, j: int)
    requires x == 4 * j + k
    ensures x % 4 == k % 4
  {}

  lemma Mod100(x: int, k: int, j: int)
    requires x == 100 * j + k
    ensures x % 100 == k % 100
  {}

  lemma Mod400(x: int, k: int, j: int)
    requires x == 400 * j + k
    ensures x % 400 == k % 400
  {}

  lemma ModShift(era: int, k: int)
    ensures (era * 400 + k) % 400 == k % 400
    ensures (era * 400 + k) % 100 == k % 100
    ensures (era * 400 + k) % 4 == k % 4
  {
    var x := era * 400 + k;
    Mod4(x, k, era * 100);
    Mod100(x, k, era * 4);
    Mod400(x, k, era);
  }

  lemma EraYearLeapIsLeapYear(era: int, yoe: int)
    requires 0 <= yoe < 400
    ensures EraYearLeap(yoe) <==> IsLeapYear(era * 400 + yoe + 1)
  {
    LeapPeriodic(era, yoe + 1);
    EraYearLeapInEra(yoe);
  }

  /** The leap-year rule repeats every 400 years. */
  lemma LeapPeriodic(era: int, y: int)
    ensures IsLeapYear(era * 400 + y) <==> IsLeapYear(y)
  {
    ModShift(era, y);
  }

  lemma EraYearLeapInEra(yoe: int)
    requires 0 <= yoe < 400
    ensures EraYearLeap(yoe) <==> IsLeapYear(yoe + 1)
  {
    YoeParts(yoe);
  }

  function MonthOfYear(doy: int): int { (5 * doy + 2) / 153 }

  function YearLength(y: int): int { if IsLeapYear(y) then 366 else 365 }

  lemma MonthOfYearRange(doy: int, leap: bool)
    requires 0 <= doy < (if leap then 366 else 365)
    ensures var mp := MonthOfYear(doy);
      0 <= mp <= 11 && MarchMonthStart(mp) <= doy
      && doy - MarchMonthStart(mp) < (if mp == 11 then (if leap then 29 else 28) else if mp == 1 || mp == 3 || mp == 6 || mp == 8 then 30 else 31)
  {}

  lemma MonthOfYearInverse(mp: int, d: int)
    requires 0 <= mp <= 11 && 0 <= d < 31
    requires mp == 11 ==> d < 29
    requires mp == 1 || mp == 3 || mp == 6 || mp == 8 ==> d < 30
    ensures MonthOfYear(MarchMonthStart(mp) + d) == mp
  {}

  /** The civil date of day `doy` (0-based) of the March-based year `yy`. */
  function CivilOfMarch(yy: int, doy: int): Civil
  {
    var mp := MonthOfYear(doy);
    var d := doy - (153 * mp + 2) / 5 + 1;
    if mp < 10 then Civil(yy, mp + 3, d) else Civil(yy + 1, mp - 9, d)
  }

  lemma CivilOfMarchValid(yy: int, doy: int)
    requires 0 <= doy < YearLength(yy + 1)
    ensures var c := CivilOfMarch(yy, doy);
      ValidCivil(c) && DaysFromCivil(c.year, c.month, c.day) == MarchYearStart(yy) + doy
  {
    MonthOfYearRange(doy, IsLeapYear(yy + 1));
  }

  lemma CivilOfMarchInverse(y: int, m: int, d: int)
    requires ValidCivil(Civil(y, m, d))
    ensures var yy := if m <= 2 then y - 1 else y;
      var doy := DaysFromCivil(y, m, d) - MarchYearStart(yy);
      0 <= doy < YearLength(yy + 1) && CivilOfMarch(yy, doy) == Civil(y, m, d)
  {
    var mp := if m > 2 then m - 3 else m + 9;
    MonthOfYearInverse(mp, d - 1);
  }

  function CivilFromDays(z: int): Civil
  {
    var n := z + EpochShift;
    var yd := EraYear(n % 146097);
    CivilOfMarch(n / 146097 * 400 + yd.yoe, yd.doy)
  }

  /** Every day number lies in some March-based year. */
  lemma MarchYearOfDays(z: int) returns (yy: int, doy: int)
    ensures 0 <= doy < YearLength(yy + 1) && MarchYearStart(yy) + doy == z
  {
    var n := z + EpochShift;
    var era := n / 146097;
    var yd := EraYear(n % 146097);
    EraSplit(n);
    yy, doy := era * 400 + yd.yoe, yd.doy;
    LeapOfEraYear(era, yd.yoe, yy + 1);
    Div400(yy, era, yd.yoe);
  }

  lemma EraSplit(n: int)
    ensures n == n / 146097 * 146097 + n % 146097 && 0 <= n % 146097 < 146097
  {}

  lemma EraDivision(n: int, era: int, doe: int)
    requires 0 <= doe < 146097 && n == era * 146097 + doe
    ensures n / 146097 == era && n % 146097 == doe
  {}

  lemma YearDivision(yy: int)
    ensures yy == yy / 400 * 400 + yy % 400 && 0 <= yy % 400 < 400
  {}

  lemma DaysOfMarchYear(yy: int, doy: int, z: int)
    requires 0 <= doy < YearLength(yy + 1)
    requires z == MarchYearStart(yy) + doy
    ensures (z + EpochShift) / 146097 * 400 + EraYear((z + EpochShift) % 146097).yoe == yy
    ensures EraYear((z + EpochShift) % 146097).doy == doy
  {
    var era, yoe := yy / 400, yy % 400;
    YearDivision(yy);
    EraYearLeapIsLeapYear(era, yoe);
    EraDivision(z + EpochShift, era, EraYearStart(yoe) + doy);
    EraYearUnique(yoe, doy, (z + EpochShift) % 146097);
  }

  lemma CivilFromDaysValid(z: int)
    ensures ValidCivil(CivilFromDays(z))
    ensures var c := CivilFromDays(z); DaysFromCivil(c.year, c.month, c.day) == z
  {
    var yy, doy := MarchYearOfDays(z);
    CivilFromDaysOfMarch(yy, doy, z);
    CivilOfMarchValid(yy, doy);
  }

  lemma CivilFromDaysOfMarch(yy: int, doy: int, z: int)
    requires 0 <= doy < YearLength(yy + 1)
    requires z == MarchYearStart(yy) + doy
    ensures CivilFromDays(z) == CivilOfMarch(yy, doy)
  {
    DaysOfMarchYear(yy, doy, z);
  }

  lemma CivilFromDaysFromCivil(y: int, m: int, d: int)
    requires ValidCivil(Civil(y, m, d))
    ensures CivilFromDays(DaysFromCivil(y, m, d)) == Civil(y, m, d)
  {
    CivilOfMarchInverse(y, m, d);
    var yy := if m <= 2 then y - 1 else y;
    CivilFromDaysOfMarch(yy, DaysFromCivil(y, m, d) - MarchYearStart(yy), DaysFromCivil(y, m, d));
  }


  /** Splitting a year-of-era into centuries, four-year blocks and years is unique. */
  lemma PartsOf(yoe: int, c: int, q: int, r: int)
    requires 0 <= c <= 3 && 0 <= q <= 24 && 0 <= r <= 3
    requires yoe == 100 * c + 4 * q + r
    ensures yoe / 100 == c && yoe % 100 / 4 == q && yoe % 4 == r
  {
    assert yoe % 100 == 4 * q + r;
    assert yoe == 4 * (25 * c + q) + r;
  }

  lemma EraYearStartSucc(yoe: int)
    requires 0 <= yoe < 399
    ensures EraYearStart(yoe + 1) == EraYearStart(yoe) + EraYearLength(yoe)
  {
    var c, q, r := yoe / 100, yoe % 100 / 4, yoe % 4;
    YoeParts(yoe);
    if r < 3 {
      PartsOf(yoe + 1, c, q, r + 1);
    } else if q < 24 {
      PartsOf(yoe + 1, c, q + 1, 0);
    } else {
      PartsOf(yoe + 1, c + 1, 0, 0);
    }
  }

  lemma Div400(x: int, q: int, r: int)
    requires 0 <= r < 400 && x == q * 400 + r
    ensures x / 400 == q && x % 400 == r
  {}

  lemma LeapOfEraYear(era: int, yoe: int, y: int)
    requires 0 <= yoe < 400 && y == era * 400 + yoe + 1
    ensures EraYearLeap(yoe) <==> IsLeapYear(y)
  {
    EraYearLeapIsLeapYear(era, yoe);
  }

  /** Consecutive March-based years are `YearLength` days apart. */
  lemma MarchYearSucc(yy: int)
    ensures MarchYearStart(yy + 1) == MarchYearStart(yy) + YearLength(yy + 1)
  {
    var era, yoe := yy / 400, yy % 400;
    YearDivision(yy);
    LeapOfEraYear(era, yoe, yy + 1);
    if yoe == 399 {
      Div400(yy + 1, era + 1, 0);
    } else {
      Div400(yy + 1, era, yoe + 1);
      EraYearStartSucc(yoe);
    }
  }

  /** The last day of month `m` is followed by the first day of month `m + 1`. */
  lemma MarchMonthLength(mp: int)
    requires 0 <= mp <= 10
    ensures MarchMonthStart(mp + 1) == MarchMonthStart(mp) + (if mp == 1 || mp == 3 || mp == 6 || mp == 8 then 30 else 31)
  {}

  lemma FebruaryEndSucc(y: int)
    ensures DaysFromCivil(y, 3, 1) == DaysFromCivil(y, 2, DaysInMonth(y, 2)) + 1
  {
    MarchYearSucc(y - 1);
    assert MarchMonthStart(0) == 0 && MarchMonthStart(11) == 337;
    DaysInMonthFebruary(y);
  }

  lemma DaysInMonthFebruary(y: int)
    ensures DaysInMonth(y, 2) + 337 == YearLength(y)
  {}

  lemma MonthEndSucc(y: int, m: int)
    requires 1 <= m <= 11
    ensures DaysFromCivil(y, m + 1, 1) == DaysFromCivil(y, m, DaysInMonth(y, m)) + 1
  {
    if m == 2 {
      FebruaryEndSucc(y);
    } else {
      MarchMonthLength(MarchIndex(m));
    }
  }

  /** 31 December is followed by 1 January of the next year. */
  lemma YearEndSucc(y: int)
    ensures DaysFromCivil(y + 1, 1, 1) == DaysFromCivil(y, 12, 31) + 1
  {}

  lemma NewYearFollowsDecember(y: int)
    ensures DaysFromCivil(y, 1, 1) == DaysFromCivil(y - 1, 12, 31) + 1
  {}

  /** Lexicographic order of (year, month, day). */
  predicate CivilBefore(a: Civil, b: Civil)
  {
    a.year < b.year
    || (a.year == b.year && (a.month < b.month || (a.month == b.month && a.day < b.day)))
  }

  function MarchYearOf(c: Civil): int
  {
    if c.month <= 2 then c.year - 1 else c.year
  }

  function MarchIndex(m: int): int
  {
    if m > 2 then m - 3 else m + 9
  }

  lemma MarchForm(c: Civil)
    requires ValidCivil(c)
    ensures 0 <= MarchIndex(c.month) <= 11
    ensures var doy := MarchMonthStart(MarchIndex(c.month)) + c.day - 1;
      DaysFromCivil(c.year, c.month, c.day) == MarchYearStart(MarchYearOf(c)) + doy
      && 0 <= doy < YearLength(MarchYearOf(c) + 1)
  {
    CivilOfMarchInverse(c.year, c.month, c.day);
  }

  lemma MarchYearStartMono(a: int, b: int)
    requires a < b
    ensures MarchYearStart(a) + YearLength(a + 1) <= MarchYearStart(b)
    decreases b - a
  {
    MarchYearSucc(b - 1);
    if a < b - 1 {
      MarchYearStartMono(a, b - 1);
    }
  }

  lemma MarchMonthGap(mp1: int, mp2: int, d: int)
    requires 0 <= mp1 < mp2 <= 11 && 1 <= d <= 31
    requires mp1 == 1 || mp1 == 3 || mp1 == 6 || mp1 == 8 ==> d <= 30
    ensures MarchMonthStart(mp1) + d - 1 < MarchMonthStart(mp2)
  {}

  lemma MarchYearOfMono(a: Civil, b: Civil)
    requires ValidCivil(a) && ValidCivil(b) && CivilBefore(a, b)
    ensures MarchYearOf(a) <= MarchYearOf(b)
    ensures MarchYearOf(a) == MarchYearOf(b) ==>
      MarchIndex(a.month) < MarchIndex(b.month) || (a.month == b.month && a.day < b.day)
  {}

  lemma MarchDayMono(a: Civil, b: Civil)
    requires ValidCivil(a) && ValidCivil(b)
    requires MarchIndex(a.month) < MarchIndex(b.month) || (a.month == b.month && a.day < b.day)
    ensures MarchMonthStart(MarchIndex(a.month)) + a.day < MarchMonthStart(MarchIndex(b.month)) + b.day
  {
    var ma, mb := MarchIndex(a.month), MarchIndex(b.month);
    if ma < mb {
      MarchMonthGap(ma, mb, a.day);
    }
  }

  /** Day numbers grow strictly with the (year, month, day) order. */
  lemma DaysFromCivilMono(a: Civil, b: Civil)
    requires ValidCivil(a) && ValidCivil(b) && CivilBefore(a, b)
    ensures DaysFromCivil(a.year, a.month, a.day) < DaysFromCivil(b.year, b.month, b.day)
  {
    MarchForm(a);
    MarchForm(b);
    MarchYearOfMono(a, b);
    var ya, yb := MarchYearOf(a), MarchYearOf(b);
    if ya < yb {
      MarchYearStartMono(ya, yb);
    } else {
      MarchDayMono(a, b);
    }
  }

  /** Civil dates never go backwards as the day number grows. */
  lemma CivilFromDaysMono(z1: int, z2: int)
    requires z1 <= z2
    ensures !CivilBefore(CivilFromDays(z2), CivilFromDays(z1))
  {
    CivilFromDaysValid(z1);
    CivilFromDaysValid(z2);
    if CivilBefore(CivilFromDays(z2), CivilFromDays(z1)) {
      DaysFromCivilMono(CivilFromDays(z2), CivilFromDays(z1));
    }
  }
}

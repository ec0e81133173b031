/**
 * Wall-clock times in one fixed zone (UTC, no daylight saving) at
 * whole-second resolution, with the operations of Go's `time` package that
 * the datasource uses. A time is kept as its calendar fields, which is what
 * `Year()`, `Month()`, `Day()` and `Hour()` read; `ToUnix`/`FromUnix`
 * connect it to seconds since the epoch, and the carry arithmetic of
 * `Prev`, `AddHour`, `Date` and `AddDate` is proved to agree with
 * arithmetic on those seconds.
 */
module Clock {
  import opened Calendar

  datatype DateTime = DateTime(year: int, month: int, day: int, hour: int, minute: int, second: int)

  predicate Valid(t: DateTime)
  {
    ValidCivil(Civil(t.year, t.month, t.day))
    && 0 <= t.hour < 24 && 0 <= t.minute < 60 && 0 <= t.second < 60
  }

  type Time = t: DateTime | Valid(t) witness DateTime(1970, 1, 1, 0, 0, 0)

  const SecondsPerHour: int := 3600
  const SecondsPerDay: int := 86400

  function DateOf(t: Time): Civil { Civil(t.year, t.month, t.day) }

  /** Midnight of a valid date. */
  function Midnight(c: Civil): Time
    requires ValidCivil(c)
  {
    DateTime(c.year, c.month, c.day, 0, 0, 0)
  }

  /** `t.Before(u)`: field-by-field comparison, most significant first. */
  predicate Before(t: Time, u: Time)
  {
    t.year < u.year
    || (t.year == u.year && (t.month < u.month
    || (t.month == u.month && (t.day < u.day
    || (t.day == u.day && (t.hour < u.hour
    || (t.hour == u.hour && (t.minute < u.minute
    || (t.minute == u.minute && t.second < u.second)))))))))
  }

  datatype YearMonth = YearMonth(year: int, month: int)

  /** Go's month normalisation in `time.Date`: months outside 1..12 carry into the year. */
  function NormalizeMonth(y: int, m: int): (r: YearMonth)
    ensures 1 <= r.month <= 12
    ensures r.year * 12 + r.month == y * 12 + m
  {
    var k := m - 1;
    YearMonth(y + k / 12, k % 12 + 1)
  }

  function NextMonth(y: int, m: int): (r: YearMonth)
    requires 1 <= m <= 12
    ensures 1 <= r.month <= 12
  {
    if m == 12 then YearMonth(y + 1, 1) else YearMonth(y, m + 1)
  }

  function PrevMonth(y: int, m: int): (r: YearMonth)
    requires 1 <= m <= 12
    ensures 1 <= r.month <= 12
  {
    if m == 1 then YearMonth(y - 1, 12) else YearMonth(y, m - 1)
  }

  /**
   * Go's day normalisation in `time.Date`: a day past the end of the month
   * carries into the following months, a day below 1 into the preceding ones.
   */
  function NormalizeDay(y: int, m: int, d: int): (c: Civil)
    requires 1 <= m <= 12
    ensures ValidCivil(c)
    decreases if d < 1 then 32 - d else d
  {
    if d < 1 then
      var p := PrevMonth(y, m);
      NormalizeDay(p.year, p.month, d + DaysInMonth(p.year, p.month))
    else if d > DaysInMonth(y, m) then
      var n := NextMonth(y, m);
      NormalizeDay(n.year, n.month, d - DaysInMonth(y, m))
    else
      Civil(y, m, d)
  }

  /** `time.Date(y, m, d, 0, 0, 0, 0, loc)`. */
  function Date(y: int, m: int, d: int): Time
  {
    var ym := NormalizeMonth(y, m);
    Midnight(NormalizeDay(ym.year, ym.month, d))
  }

  /** `t.AddDate(years, months, days)`: the normalised date at the same clock time. */
  function AddDate(t: Time, years: int, months: int, days: int): Time
  {
    var ym := NormalizeMonth(t.year + years, t.month + months);
    var c := NormalizeDay(ym.year, ym.month, t.day + days);
    DateTime(c.year, c.month, c.day, t.hour, t.minute, t.second)
  }

  /** `t.Add(time.Hour)`. */
  function AddHour(t: Time): Time
  {
    if t.hour < 23 then t.(hour := t.hour + 1)
    else
      var c := NormalizeDay(t.year, t.month, t.day + 1);
      DateTime(c.year, c.month, c.day, 0, t.minute, t.second)
  }

  /**
   * `t.Add(-time.Nanosecond)` read at whole-second resolution: every time
   * here is a whole second, so the nanosecond before `t` shows the fields
   * of the second before `t`.
   */
  function Prev(t: Time): Time
  {
    if t.second > 0 then t.(second := t.second - 1)
    else if t.minute > 0 then t.(minute := t.minute - 1, second := 59)
    else if t.hour > 0 then t.(hour := t.hour - 1, minute := 59, second := 59)
    else
      var c := NormalizeDay(t.year, t.month, t.day - 1);
      DateTime(c.year, c.month, c.day, 23, 59, 59)
  }

  /** `t.Unix()`: seconds since 1970-01-01 00:00:00. */
  function ToUnix(t: Time): int
  {
    DaysFromCivil(t.year, t.month, t.day) * SecondsPerDay
    + t.hour * SecondsPerHour + t.minute * 60 + t.second
  }

  /** `time.Unix(n, 0)` in the fixed zone. */
  function FromUnix(n: int): Time
  {
    var z := n / SecondsPerDay;
    var s := n % SecondsPerDay;
    CivilFromDaysValid(z);
    var c := CivilFromDays(z);
    DateTime(c.year, c.month, c.day, s / SecondsPerHour, s % SecondsPerHour / 60, s % 60)
  }

  /** `t.Add(k * time.Second)`. */
  function AddSeconds(t: Time, k: int): Time
  {
    FromUnix(ToUnix(t) + k)
  }

  lemma ClockSplit(n: int)
    ensures var s := n % SecondsPerDay;
      n == n / SecondsPerDay * SecondsPerDay + s / SecondsPerHour * SecondsPerHour + s % SecondsPerHour / 60 * 60 + s % 60
      && 0 <= s / SecondsPerHour < 24 && 0 <= s % SecondsPerHour / 60 < 60
  {}

  lemma ClockJoin(z: int, h: int, mi: int, s: int, n: int)
    requires 0 <= h < 24 && 0 <= mi < 60 && 0 <= s < 60
    requires n == z * SecondsPerDay + h * SecondsPerHour + mi * 60 + s
    ensures n / SecondsPerDay == z && n % SecondsPerDay / SecondsPerHour == h
    ensures n % SecondsPerDay % SecondsPerHour / 60 == mi && n % SecondsPerDay % 60 == s
  {
    var r := h * SecondsPerHour + mi * 60 + s;
    assert 0 <= r < SecondsPerDay;
    assert n / SecondsPerDay == z && n % SecondsPerDay == r;
    assert r % SecondsPerHour == mi * 60 + s;
  }

  /** Seconds since the epoch name times one-to-one: FromUnix undoes ToUnix ... */
  lemma FromUnixToUnix(t: Time)
    ensures FromUnix(ToUnix(t)) == t
  {
    var z := DaysFromCivil(t.year, t.month, t.day);
    ClockJoin(z, t.hour, t.minute, t.second, ToUnix(t));
    CivilFromDaysFromCivil(t.year, t.month, t.day);
  }

  /** ... and ToUnix undoes FromUnix. */
  lemma ToUnixFromUnix(n: int)
    ensures ToUnix(FromUnix(n)) == n
  {
    ClockSplit(n);
    CivilFromDaysValid(n / SecondsPerDay);
  }

  /** Distinct times are distinct instants. */
  lemma ToUnixInjective(a: Time, b: Time)
    requires ToUnix(a) == ToUnix(b)
    ensures a == b
  {
    FromUnixToUnix(a);
    FromUnixToUnix(b);
  }

  /** Midnight is the first second of the date's day number. */
  lemma MidnightStartsDay(c: Civil)
    requires ValidCivil(c)
    ensures DateOf(Midnight(c)) == c
    ensures ToUnix(Midnight(c)) == DaysFromCivil(c.year, c.month, c.day) * SecondsPerDay
  {}

  lemma TimeOfDayBound(t: Time)
    ensures 0 <= t.hour * SecondsPerHour + t.minute * 60 + t.second < SecondsPerDay
  {}

  /** `Before` is the order of the instants on the time line. */
  lemma BeforeIsEarlier(t: Time, u: Time)
    ensures Before(t, u) <==> ToUnix(t) < ToUnix(u)
  {
    TimeOfDayBound(t);
    TimeOfDayBound(u);
    var ct, cu := DateOf(t), DateOf(u);
    if CivilBefore(ct, cu) {
      DaysFromCivilMono(ct, cu);
    } else if CivilBefore(cu, ct) {
      DaysFromCivilMono(cu, ct);
    }
  }

  /** Day normalisation is the day-number arithmetic Go uses. */
  lemma {:induction false} NormalizeDayDays(y: int, m: int, d: int)
    requires 1 <= m <= 12
    ensures var c := NormalizeDay(y, m, d);
      DaysFromCivil(c.year, c.month, c.day) == DaysFromCivil(y, m, 1) + d - 1
    decreases if d < 1 then 32 - d else d
  {
    if d < 1 {
      var p := PrevMonth(y, m);
      NormalizeDayDays(p.year, p.month, d + DaysInMonth(p.year, p.month));
      MonthStartAfter(p.year, p.month, y, m);
    } else if d > DaysInMonth(y, m) {
      var n := NextMonth(y, m);
      NormalizeDayDays(n.year, n.month, d - DaysInMonth(y, m));
      MonthStartAfter(y, m, n.year, n.month);
    }
  }

  /** The first of the month after (y, m) is DaysInMonth(y, m) days after the first of (y, m). */
  lemma MonthStartAfter(y: int, m: int, y2: int, m2: int)
    requires 1 <= m <= 12 && NextMonth(y, m) == YearMonth(y2, m2)
    ensures DaysFromCivil(y2, m2, 1) == DaysFromCivil(y, m, 1) + DaysInMonth(y, m)
  {
    if m == 12 {
      NewYearFollowsDecember(y2);
    } else {
      MonthEndSucc(y, m);
    }
  }

  /** The second before `t` is one second earlier on the time line. */
  lemma PrevIsOneSecondEarlier(t: Time)
    ensures ToUnix(Prev(t)) == ToUnix(t) - 1
  {
    if t.second == 0 && t.minute == 0 && t.hour == 0 {
      NormalizeDayDays(t.year, t.month, t.day - 1);
    }
  }

  /** Before 23:00, `Add(time.Hour)` only moves the hour. */
  lemma AddHourSameDay(t: Time)
    requires t.hour < 23
    ensures AddHour(t) == t.(hour := t.hour + 1)
  {}

  /** `AddHour` is 3600 seconds later on the time line. */
  lemma AddHourIsHourLater(t: Time)
    ensures ToUnix(AddHour(t)) == ToUnix(t) + SecondsPerHour
  {
    if t.hour == 23 {
      NormalizeDayDays(t.year, t.month, t.day + 1);
    }
  }

  /** A normal date is left unchanged by normalisation. */
  lemma NormalizeDayValid(y: int, m: int, d: int)
    requires ValidCivil(Civil(y, m, d))
    ensures NormalizeDay(y, m, d) == Civil(y, m, d)
  {}

  lemma NormalizeMonthValid(y: int, m: int)
    requires 1 <= m <= 12
    ensures NormalizeMonth(y, m) == YearMonth(y, m)
  {
    assert (m - 1) / 12 == 0 && (m - 1) % 12 + 1 == m;
  }

  /** Midnight of 1 January of year `y + 1`, and the second before it. */
  lemma StartOfNextYear(y: int)
    ensures Date(y + 1, 1, 1) == DateTime(y + 1, 1, 1, 0, 0, 0)
    ensures Prev(Date(y + 1, 1, 1)) == DateTime(y, 12, 31, 23, 59, 59)
  {
    NormalizeMonthValid(y + 1, 1);
    assert NormalizeDay(y + 1, 1, 0) == NormalizeDay(y, 12, 31);
  }

  /** Midnight of the first of the month after (y, m), and the second before it. */
  lemma StartOfNextMonth(y: int, m: int)
    requires 1 <= m <= 11
    ensures Date(y, m + 1, 1) == DateTime(y, m + 1, 1, 0, 0, 0)
    ensures Prev(Date(y, m + 1, 1)) == DateTime(y, m, DaysInMonth(y, m), 23, 59, 59)
  {
    NormalizeMonthValid(y, m + 1);
    assert NormalizeDay(y, m + 1, 0) == NormalizeDay(y, m, DaysInMonth(y, m));
  }

  /** The second before the midnight that ends `t`'s day is on `t`'s day. */
  lemma StartOfNextDay(t: Time)
    ensures Date(t.year, t.month, t.day + 1).hour == 0
    ensures Prev(Date(t.year, t.month, t.day + 1)) == DateTime(t.year, t.month, t.day, 23, 59, 59)
  {
    NormalizeMonthValid(t.year, t.month);
    var c := NormalizeDay(t.year, t.month, t.day + 1);
    if t.day + 1 > DaysInMonth(t.year, t.month) {
      var n := NextMonth(t.year, t.month);
      assert t.day == DaysInMonth(t.year, t.month);
      assert NormalizeDay(n.year, n.month, 1) == Civil(n.year, n.month, 1);
      assert c == Civil(n.year, n.month, 1);
      assert PrevMonth(n.year, n.month) == YearMonth(t.year, t.month);
      assert NormalizeDay(n.year, n.month, 0) == NormalizeDay(t.year, t.month, t.day);
    } else {
      assert NormalizeDay(t.year, t.month, t.day) == DateOf(t);
    }
  }

  /** Midnight of 1 January of year `y`. */
  lemma NewYear(y: int)
    ensures Date(y, 1, 1) == DateTime(y, 1, 1, 0, 0, 0)
  {
    NormalizeMonthValid(y, 1);
  }

  /** A whole year later than midnight of 1 January is midnight of the next 1 January. */
  lemma AddYearToNewYear(y: int)
    ensures AddDate(Date(y, 1, 1), 1, 0, 0) == Date(y + 1, 1, 1)
  {
    NewYear(y);
    NewYear(y + 1);
    NormalizeMonthValid(y + 1, 1);
  }

  /** One second before `t` comes before `t`. */
  lemma PrevBefore(t: Time)
    ensures Before(Prev(t), t)
  {
    PrevIsOneSecondEarlier(t);
    BeforeIsEarlier(Prev(t), t);
  }

  /** A time before `t` is at or before the second before `t`. */
  lemma BeforePrev(f: Time, t: Time)
    requires Before(f, t)
    ensures f == Prev(t) || Before(f, Prev(t))
  {
    BeforeIsEarlier(f, t);
    PrevIsOneSecondEarlier(t);
    BeforeIsEarlier(f, Prev(t));
    if ToUnix(f) == ToUnix(Prev(t)) {
      FromUnixToUnix(f);
      FromUnixToUnix(Prev(t));
    }
  }

  /** The second before `t` is in `t`'s year unless `t` is midnight of 1 January. */
  lemma PrevYear(t: Time)
    ensures Prev(t).year == t.year
      || (Prev(t).year == t.year - 1 && t == DateTime(t.year, 1, 1, 0, 0, 0))
  {
    if t.second == 0 && t.minute == 0 && t.hour == 0 && t.day == 1 {
      var p := PrevMonth(t.year, t.month);
      assert NormalizeDay(t.year, t.month, 0) == NormalizeDay(p.year, p.month, DaysInMonth(p.year, p.month));
    } else if t.second == 0 && t.minute == 0 && t.hour == 0 {
      assert NormalizeDay(t.year, t.month, t.day - 1) == Civil(t.year, t.month, t.day - 1);
    }
  }
}

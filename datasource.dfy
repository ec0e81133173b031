/**
 * The directory-prefix computation of the video datasource
 * (`listTargetDirectories`): a half-open range of instants becomes the list
 * of `YYYY`, `YYYY/MM`, `YYYY/MM/DD` and `YYYY/MM/DD/HH` prefixes that the
 * `/list` handler walks.
 *
 * `TargetDirectories` and its stage and loop functions are the
 * specification: each stage recurses on the rest of the current unit, then
 * loops over whole units, exactly as the source does, with the stage
 * boundaries compared against `toTs - 1ns` and the loop bounds read from `toTs`.
 * `ListTargetDirectories` is the imperative version (recursion plus four
 * loops that advance `fromTs`), proved equal to it.
 */
module Datasource {
  import opened Wrappers
  import opened Decimal
  import opened Calendar
  import opened Clock

  /** The two `log.Panic` calls, modelled as error outcomes. */
  datatype Panic = DecemberPanic | MonthOrderPanic

  /**
   * One prefix of the listing, by the fields it is built from. The source
   * formats each prefix as soon as it computes it; `Path` gives that text.
   */
  datatype Prefix =
    | YearDir(year: int)
    | MonthDir(year: int, month: int)
    | DayDir(year: int, month: int, day: int)
    | HourDir(year: int, month: int, day: int, hour: int)

  type Listing = Result<seq<Prefix>, Panic>

  /** Entries emitted so far by a loop, and the loop's final `fromTs`. */
  datatype Progress = Progress(entries: seq<Prefix>, from: Time)

  /** `filepath.Join(strconv.Itoa(year))`. */
  function YearEntry(year: int): string
  {
    Itoa(year)
  }

  /** `filepath.Join(fmt.Sprintf("%04d", y), fmt.Sprintf("%02d", m))`. */
  function MonthEntry(y: int, m: int): string
  {
    PadInt(y, 4) + "/" + PadInt(m, 2)
  }

  /** The same with a third `%02d` segment for the day. */
  function DayEntry(y: int, m: int, d: int): string
  {
    MonthEntry(y, m) + "/" + PadInt(d, 2)
  }

  /** The same with a fourth `%02d` segment for the hour. */
  function HourEntry(y: int, m: int, d: int, h: int): string
  {
    DayEntry(y, m, d) + "/" + PadInt(h, 2)
  }

  /** The text the source builds for a prefix: lines 34, 49, 58 and 64. */
  function Path(p: Prefix): string
  {
    match p
    case YearDir(y) => YearEntry(y)
    case MonthDir(y, m) => MonthEntry(y, m)
    case DayDir(y, m, d) => DayEntry(y, m, d)
    case HourDir(y, m, d, h) => HourEntry(y, m, d, h)
  }

  /** The prefixes as the strings the source returns. */
  function Paths(ps: seq<Prefix>): (r: seq<string>)
    ensures |r| == |ps| && forall k :: 0 <= k < |ps| ==> r[k] == Path(ps[k])
  {
    seq(|ps|, k requires 0 <= k < |ps| => Path(ps[k]))
  }

  function Count(lo: int, hi: int): nat
  {
    if lo < hi then hi - lo else 0
  }

  /** The year loop: one entry per year, a year added to `fromTs` each time. */
  function YearLoop(f: Time, year: int, toYear: int): (p: Progress)
    ensures |p.entries| == Count(year, toYear)
    ensures forall k :: 0 <= k < |p.entries| ==> p.entries[k] == YearDir(year + k)
    decreases toYear - year
  {
    if year < toYear then
      var rest := YearLoop(AddDate(f, 1, 0, 0), year + 1, toYear);
      Progress([YearDir(year)] + rest.entries, rest.from)
    else
      Progress([], f)
  }

  /** The month loop: the year segment is read from the advancing `fromTs`. */
  function MonthLoop(f: Time, month: int, toMonth: int): (p: Progress)
    ensures |p.entries| == Count(month, toMonth)
    decreases toMonth - month
  {
    if month < toMonth then
      var rest := MonthLoop(AddDate(f, 0, 1, 0), month + 1, toMonth);
      Progress([MonthDir(f.year, month)] + rest.entries, rest.from)
    else
      Progress([], f)
  }

  /** The day loop: year and month segments are read from the advancing `fromTs`. */
  function DayLoop(f: Time, day: int, toDay: int): (p: Progress)
    ensures |p.entries| == Count(day, toDay)
    decreases toDay - day
  {
    if day < toDay then
      var rest := DayLoop(AddDate(f, 0, 0, 1), day + 1, toDay);
      Progress([DayDir(f.year, f.month, day)] + rest.entries, rest.from)
    else
      Progress([], f)
  }

  /** The hour loop: date segments are read from the advancing `fromTs`. */
  function HourLoop(f: Time, hour: int, toHour: int): (p: Progress)
    ensures |p.entries| == Count(hour, toHour)
    decreases toHour - hour
  {
    if hour < toHour then
      var rest := HourLoop(AddHour(f), hour + 1, toHour);
      Progress([HourDir(f.year, f.month, f.day, hour)] + rest.entries, rest.from)
    else
      Progress([], f)
  }

  /**
   * The coarsest field (4 year, 3 month, 2 day, 1 hour, 0 none) in which
   * `f` and the last second before `toTs` differ, in the order the stages
   * test them. Every recursive call of the source lowers it.
   */
  function Level(f: Time, toTs: Time): nat
  {
    var last := Prev(toTs);
    if f.year != last.year then 4
    else if f.month != last.month then 3
    else if f.day != last.day then 2
    else if f.hour != last.hour then 1
    else 0
  }

  function Cap(n: nat, k: nat): nat
  {
    if n < k then n else k
  }

  /** `listTargetDirectories(from, toTs)`. */
  function TargetDirectories(from: Time, toTs: Time): Listing
    decreases Level(from, toTs), 4
  {
    YearStage(from, toTs)
  }

  /** Lines 29-37, then the later stages. */
  function YearStage(f: Time, toTs: Time): Listing
    decreases Level(f, toTs), 3
  {
    if f.year != Prev(toTs).year then
      var next := Date(f.year + 1, 1, 1);
      StartOfNextYear(f.year);
      var inner :- TargetDirectories(f, next);
      var years := YearLoop(next, next.year, toTs.year);
      var rest :- MonthStage(years.from, toTs);
      Ok(inner + years.entries + rest)
    else
      MonthStage(f, toTs)
  }

  /** Lines 38-52, then the later stages. */
  function MonthStage(f: Time, toTs: Time): Listing
    decreases Cap(Level(f, toTs), 3), 2
  {
    if f.month != Prev(toTs).month then
      if f.month == 12 then Err(DecemberPanic)
      else if f.month > toTs.month then Err(MonthOrderPanic)
      else
        var next := Date(f.year, f.month + 1, 1);
        StartOfNextMonth(f.year, f.month);
        var inner :- TargetDirectories(f, next);
        var months := MonthLoop(next, next.month, toTs.month);
        var rest :- DayStage(months.from, toTs);
        Ok(inner + months.entries + rest)
    else
      DayStage(f, toTs)
  }

  /** Lines 53-61, then the hour stage. */
  function DayStage(f: Time, toTs: Time): Listing
    decreases Cap(Level(f, toTs), 2), 1
  {
    if f.day != Prev(toTs).day then
      var next := Date(f.year, f.month, f.day + 1);
      StartOfNextDay(f);
      var inner :- TargetDirectories(f, next);
      var days := DayLoop(next, next.day, toTs.day);
      var rest :- HourStage(days.from, toTs);
      Ok(inner + days.entries + rest)
    else
      HourStage(f, toTs)
  }

  /** Lines 62-67. */
  function HourStage(f: Time, toTs: Time): Listing
  {
    if f.hour != Prev(toTs).hour then Ok(HourLoop(f, f.hour, toTs.hour).entries) else Ok([])
  }

  /** `prefix` followed by the entries of `r`, or `r`'s panic. */
  function Prepend(prefix: seq<Prefix>, r: Listing): Listing
  {
    if r.Ok? then Ok(prefix + r.value) else r
  }

  lemma PrependOk(a: seq<Prefix>, b: seq<Prefix>, r: Listing)
    ensures Prepend(a, Prepend(b, r)) == Prepend(a + b, r)
    ensures Prepend(a, Ok(b)) == Ok(a + b)
  {
    if r.Ok? {
      assert a + (b + r.value) == (a + b) + r.value;
    }
  }

  lemma YearLoopStep(f: Time, year: int, toYear: int)
    requires year < toYear
    ensures YearLoop(f, year, toYear).entries == [YearDir(year)] + YearLoop(AddDate(f, 1, 0, 0), year + 1, toYear).entries
    ensures YearLoop(f, year, toYear).from == YearLoop(AddDate(f, 1, 0, 0), year + 1, toYear).from
  {}

  lemma DayLoopStep(f: Time, day: int, toDay: int)
    requires day < toDay
    ensures DayLoop(f, day, toDay).entries == [DayDir(f.year, f.month, day)] + DayLoop(AddDate(f, 0, 0, 1), day + 1, toDay).entries
    ensures DayLoop(f, day, toDay).from == DayLoop(AddDate(f, 0, 0, 1), day + 1, toDay).from
  {}

  lemma MonthLoopStep(f: Time, month: int, toMonth: int)
    requires month < toMonth
    ensures MonthLoop(f, month, toMonth).entries == [MonthDir(f.year, month)] + MonthLoop(AddDate(f, 0, 1, 0), month + 1, toMonth).entries
    ensures MonthLoop(f, month, toMonth).from == MonthLoop(AddDate(f, 0, 1, 0), month + 1, toMonth).from
  {}

  lemma HourLoopStep(f: Time, hour: int, toHour: int)
    requires hour < toHour
    ensures HourLoop(f, hour, toHour).entries == [HourDir(f.year, f.month, f.day, hour)] + HourLoop(AddHour(f), hour + 1, toHour).entries
    ensures HourLoop(f, hour, toHour).from == HourLoop(AddHour(f), hour + 1, toHour).from
  {}

  /** Lines 33-36: appends one entry per year from `fromTs`'s year up to `toYear`. */
  method AppendYears(result0: seq<Prefix>, from0: Time, toYear: int) returns (result: seq<Prefix>, fromTs: Time)
    ensures var p := YearLoop(from0, from0.year, toYear); result == result0 + p.entries && fromTs == p.from
  {
    result, fromTs := result0, from0;
    var year := fromTs.year;
    while year < toYear
      invariant result + YearLoop(fromTs, year, toYear).entries == result0 + YearLoop(from0, from0.year, toYear).entries
      invariant YearLoop(fromTs, year, toYear).from == YearLoop(from0, from0.year, toYear).from
      decreases toYear - year
    {
      YearLoopStep(fromTs, year, toYear);
      ghost var rest := YearLoop(AddDate(fromTs, 1, 0, 0), year + 1, toYear).entries;
      assert result + ([YearDir(year)] + rest) == (result + [YearDir(year)]) + rest;
      result := result + [YearDir(year)];
      fromTs := AddDate(fromTs, 1, 0, 0);
      year := year + 1;
    }
  }

  /** Lines 48-51: appends one entry per month from `fromTs`'s month up to `toMonth`. */
  method AppendMonths(result0: seq<Prefix>, from0: Time, toMonth: int) returns (result: seq<Prefix>, fromTs: Time)
    ensures var p := MonthLoop(from0, from0.month, toMonth); result == result0 + p.entries && fromTs == p.from
  {
    result, fromTs := result0, from0;
    var month := fromTs.month;
    while month < toMonth
      invariant result + MonthLoop(fromTs, month, toMonth).entries == result0 + MonthLoop(from0, from0.month, toMonth).entries
      invariant MonthLoop(fromTs, month, toMonth).from == MonthLoop(from0, from0.month, toMonth).from
      decreases toMonth - month
    {
      MonthLoopStep(fromTs, month, toMonth);
      ghost var rest := MonthLoop(AddDate(fromTs, 0, 1, 0), month + 1, toMonth).entries;
      assert result + ([MonthDir(fromTs.year, month)] + rest) == (result + [MonthDir(fromTs.year, month)]) + rest;
      result := result + [MonthDir(fromTs.year, month)];
      fromTs := AddDate(fromTs, 0, 1, 0);
      month := month + 1;
    }
  }

  /** Lines 57-60: appends one entry per day from `fromTs`'s day up to `toDay`. */
  method AppendDays(result0: seq<Prefix>, from0: Time, toDay: int) returns (result: seq<Prefix>, fromTs: Time)
    ensures var p := DayLoop(from0, from0.day, toDay); result == result0 + p.entries && fromTs == p.from
  {
    result, fromTs := result0, from0;
    var day := fromTs.day;
    while day < toDay
      invariant result + DayLoop(fromTs, day, toDay).entries == result0 + DayLoop(from0, from0.day, toDay).entries
      invariant DayLoop(fromTs, day, toDay).from == DayLoop(from0, from0.day, toDay).from
      decreases toDay - day
    {
      DayLoopStep(fromTs, day, toDay);
      ghost var rest := DayLoop(AddDate(fromTs, 0, 0, 1), day + 1, toDay).entries;
      var entry := DayDir(fromTs.year, fromTs.month, day);
      assert result + ([entry] + rest) == (result + [entry]) + rest;
      result := result + [entry];
      fromTs := AddDate(fromTs, 0, 0, 1);
      day := day + 1;
    }
  }

  /** Lines 63-66: appends one entry per hour from `fromTs`'s hour up to `toHour`. */
  method AppendHours(result0: seq<Prefix>, from0: Time, toHour: int) returns (result: seq<Prefix>, fromTs: Time)
    ensures var p := HourLoop(from0, from0.hour, toHour); result == result0 + p.entries && fromTs == p.from
  {
    result, fromTs := result0, from0;
    var hour := fromTs.hour;
    while hour < toHour
      invariant result + HourLoop(fromTs, hour, toHour).entries == result0 + HourLoop(from0, from0.hour, toHour).entries
      invariant HourLoop(fromTs, hour, toHour).from == HourLoop(from0, from0.hour, toHour).from
      decreases toHour - hour
    {
      HourLoopStep(fromTs, hour, toHour);
      ghost var rest := HourLoop(AddHour(fromTs), hour + 1, toHour).entries;
      var entry := HourDir(fromTs.year, fromTs.month, fromTs.day, hour);
      assert result + ([entry] + rest) == (result + [entry]) + rest;
      result := result + [entry];
      fromTs := AddHour(fromTs);
      hour := hour + 1;
    }
  }

  /** One step of the year stage, as the method takes it. */
  lemma YearStageStep(f: Time, toTs: Time)
    requires f.year != Prev(toTs).year
    ensures var next := Date(f.year + 1, 1, 1);
      var inner := TargetDirectories(f, next);
      var years := YearLoop(next, next.year, toTs.year);
      YearStage(f, toTs) == if inner.Err? then inner else Prepend(inner.value + years.entries, MonthStage(years.from, toTs))
  {
    var next := Date(f.year + 1, 1, 1);
    var inner := TargetDirectories(f, next);
    if inner.Ok? {
      var years := YearLoop(next, next.year, toTs.year);
      var rest := MonthStage(years.from, toTs);
      if rest.Ok? {
        assert inner.value + years.entries + rest.value == (inner.value + years.entries) + rest.value;
      }
    }
  }

  /** One step of the month stage past the two panics. */
  lemma MonthStageStep(f: Time, toTs: Time)
    requires f.month != Prev(toTs).month && f.month != 12 && f.month <= toTs.month
    ensures var next := Date(f.year, f.month + 1, 1);
      var inner := TargetDirectories(f, next);
      var months := MonthLoop(next, next.month, toTs.month);
      MonthStage(f, toTs) == if inner.Err? then inner else Prepend(inner.value + months.entries, DayStage(months.from, toTs))
  {
    var next := Date(f.year, f.month + 1, 1);
    var inner := TargetDirectories(f, next);
    if inner.Ok? {
      var months := MonthLoop(next, next.month, toTs.month);
      var rest := DayStage(months.from, toTs);
      if rest.Ok? {
        assert inner.value + months.entries + rest.value == (inner.value + months.entries) + rest.value;
      }
    }
  }

  /** One step of the day stage. */
  lemma DayStageStep(f: Time, toTs: Time)
    requires f.day != Prev(toTs).day
    ensures var next := Date(f.year, f.month, f.day + 1);
      var inner := TargetDirectories(f, next);
      var days := DayLoop(next, next.day, toTs.day);
      DayStage(f, toTs) == if inner.Err? then inner else Prepend(inner.value + days.entries, HourStage(days.from, toTs))
  {
    var next := Date(f.year, f.month, f.day + 1);
    var inner := TargetDirectories(f, next);
    if inner.Ok? {
      var days := DayLoop(next, next.day, toTs.day);
      var rest := HourStage(days.from, toTs);
      assert inner.value + days.entries + rest.value == (inner.value + days.entries) + rest.value;
    }
  }

  lemma ConcatAssoc(a: seq<Prefix>, b: seq<Prefix>, c: seq<Prefix>)
    ensures (a + b) + c == a + (b + c)
  {}

  lemma PrependEmpty(r: Listing)
    ensures Prepend([], r) == r
  {
    if r.Ok? {
      assert [] + r.value == r.value;
    }
  }

  /**
   * `listTargetDirectories` as written. The body is split at the stage
   * boundaries: each part receives the `result` and `fromTs` built so far,
   * runs its stage (a recursive call, then a loop that appends to `result`
   * and advances `fromTs`) and falls through to the next part; the panics
   * return their error.
   */
  method ListTargetDirectories(from: Time, toTs: Time) returns (r: Listing)
    ensures r == TargetDirectories(from, toTs)
    decreases Level(from, toTs), 4
  {
    r := YearPart([], from, toTs);
    PrependEmpty(YearStage(from, toTs));
  }

  /** Lines 29-37. */
  method YearPart(result0: seq<Prefix>, from0: Time, toTs: Time) returns (r: Listing)
    ensures r == Prepend(result0, YearStage(from0, toTs))
    decreases Level(from0, toTs), 3
  {
    var result, fromTs := result0, from0;
    if fromTs.year != Prev(toTs).year {
      var next := Date(fromTs.year + 1, 1, 1);
      StartOfNextYear(fromTs.year);
      var inner := ListTargetDirectories(fromTs, next);
      YearStageStep(from0, toTs);
      if inner.Err? {
        return inner;
      }
      result := result + inner.value;
      fromTs := next;
      result, fromTs := AppendYears(result, fromTs, toTs.year);
      r := MonthPart(result, fromTs, toTs);
      ghost var mid := inner.value + YearLoop(next, next.year, toTs.year).entries;
      ConcatAssoc(result0, inner.value, YearLoop(next, next.year, toTs.year).entries);
      PrependOk(result0, mid, MonthStage(fromTs, toTs));
    } else {
      r := MonthPart(result, fromTs, toTs);
    }
  }

  /** Lines 38-52. */
  method MonthPart(result0: seq<Prefix>, from0: Time, toTs: Time) returns (r: Listing)
    ensures r == Prepend(result0, MonthStage(from0, toTs))
    decreases Cap(Level(from0, toTs), 3), 2
  {
    var result, fromTs := result0, from0;
    if fromTs.month != Prev(toTs).month {
      if fromTs.month == 12 {
        return Err(DecemberPanic);
      }
      if fromTs.month > toTs.month {
        return Err(MonthOrderPanic);
      }
      var next := Date(fromTs.year, fromTs.month + 1, 1);
      StartOfNextMonth(fromTs.year, fromTs.month);
      var inner := ListTargetDirectories(fromTs, next);
      MonthStageStep(from0, toTs);
      if inner.Err? {
        return inner;
      }
      result := result + inner.value;
      fromTs := next;
      result, fromTs := AppendMonths(result, fromTs, toTs.month);
      r := DayPart(result, fromTs, toTs);
      ghost var mid := inner.value + MonthLoop(next, next.month, toTs.month).entries;
      ConcatAssoc(result0, inner.value, MonthLoop(next, next.month, toTs.month).entries);
      PrependOk(result0, mid, DayStage(fromTs, toTs));
    } else {
      r := DayPart(result, fromTs, toTs);
    }
  }

  /** Lines 53-61. */
  method DayPart(result0: seq<Prefix>, from0: Time, toTs: Time) returns (r: Listing)
    ensures r == Prepend(result0, DayStage(from0, toTs))
    decreases Cap(Level(from0, toTs), 2), 1
  {
    var result, fromTs := result0, from0;
    if fromTs.day != Prev(toTs).day {
      var next := Date(fromTs.year, fromTs.month, fromTs.day + 1);
      StartOfNextDay(fromTs);
      var inner := ListTargetDirectories(fromTs, next);
      DayStageStep(from0, toTs);
      if inner.Err? {
        return inner;
      }
      result := result + inner.value;
      fromTs := next;
      result, fromTs := AppendDays(result, fromTs, toTs.day);
      r := HourPart(result, fromTs, toTs);
      ghost var mid := inner.value + DayLoop(next, next.day, toTs.day).entries;
      ConcatAssoc(result0, inner.value, DayLoop(next, next.day, toTs.day).entries);
      PrependOk(result0, mid, HourStage(fromTs, toTs));
    } else {
      r := HourPart(result, fromTs, toTs);
    }
  }

  /** Lines 62-68. */
  method HourPart(result0: seq<Prefix>, from0: Time, toTs: Time) returns (r: Listing)
    ensures r == Prepend(result0, HourStage(from0, toTs))
  {
    var result, fromTs := result0, from0;
    if fromTs.hour != Prev(toTs).hour {
      result, fromTs := AppendHours(result, fromTs, toTs.hour);
    } else {
      assert result + [] == result;
    }
    return Ok(result);
  }
}

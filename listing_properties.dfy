/**
 * What `listTargetDirectories` computes, stated against `TargetDirectories`:
 * the base case, the hour stage, the year stage, the entry formats, when
 * each of the two panics fires, and the ranges the datasource is typically
 * asked for.
 */
module ListingProperties {
  import opened Wrappers
  import opened Decimal
  import opened Calendar
  import opened Clock
  import opened Datasource

  /** The hour entries of one day, hours `lo` to `hi - 1` in ascending order. */
  function HourRange(y: int, m: int, d: int, lo: int, hi: int): seq<Prefix>
  {
    seq(Count(lo, hi), k => HourDir(y, m, d, lo + k))
  }

  /** The unpadded year entries `lo` to `hi - 1` in ascending order. */
  function YearRange(lo: int, hi: int): seq<Prefix>
  {
    seq(Count(lo, hi), k => YearDir(lo + k))
  }

  /** `fromTs` and the second before `toTs` share the date and the hour. */
  predicate SameClockHour(f: Time, toTs: Time)
  {
    var last := Prev(toTs);
    f.year == last.year && f.month == last.month && f.day == last.day && f.hour == last.hour
  }

  /** `fromTs` and the second before `toTs` share the date. */
  predicate SameDay(f: Time, toTs: Time)
  {
    var last := Prev(toTs);
    f.year == last.year && f.month == last.month && f.day == last.day
  }

  // ---------------------------------------------------------------------
  // The base case and the hour stage
  // ---------------------------------------------------------------------

  /** Lines 28-29, 38, 53, 62, 68: no stage fires, and the result is empty. */
  lemma BaseCase(f: Time, toTs: Time)
    requires SameClockHour(f, toTs)
    ensures TargetDirectories(f, toTs) == Ok([])
  {
    SameDayIsHourStage(f, toTs);
  }

  /** The year and month stages pass straight through to the day stage within one month. */
  lemma SameMonthIsDayStage(f: Time, toTs: Time)
    requires f.year == Prev(toTs).year && f.month == Prev(toTs).month
    ensures TargetDirectories(f, toTs) == DayStage(f, toTs)
  {
    assert TargetDirectories(f, toTs) == YearStage(f, toTs);
    assert YearStage(f, toTs) == MonthStage(f, toTs);
  }

  /** The date stages pass straight through to the hour stage within one day. */
  lemma SameDayIsHourStage(f: Time, toTs: Time)
    requires SameDay(f, toTs)
    ensures TargetDirectories(f, toTs) == HourStage(f, toTs)
  {
    SameMonthIsDayStage(f, toTs);
  }

  /** The last hour of a loop yields its one entry. */
  lemma HourLoopLast(f: Time, toHour: int)
    requires f.hour + 1 == toHour
    ensures HourLoop(f, f.hour, toHour).entries == [HourDir(f.year, f.month, f.day, f.hour)]
  {
    HourLoopStep(f, f.hour, toHour);
    var g := AddHour(f);
    assert HourLoop(g, f.hour + 1, toHour).entries == [];
  }

  /** While the hour stays below 24, the hour loop stays on `f`'s day. */
  lemma {:induction false} HourLoopOneDay(f: Time, toHour: int)
    requires toHour <= 24
    ensures var p := HourLoop(f, f.hour, toHour);
      forall k :: 0 <= k < |p.entries| ==> p.entries[k] == HourDir(f.year, f.month, f.day, f.hour + k)
    decreases toHour - f.hour
  {
    if f.hour + 1 == toHour {
      HourLoopLast(f, toHour);
    } else if f.hour < toHour {
      HourLoopStep(f, f.hour, toHour);
      var entries := HourLoop(f, f.hour, toHour).entries;
      var g := f.(hour := f.hour + 1);
      AddHourSameDay(f);
      var rest := HourLoop(g, g.hour, toHour).entries;
      assert entries == [HourDir(f.year, f.month, f.day, f.hour)] + rest;
      HourLoopOneDay(g, toHour);
      forall k | 0 <= k < |entries|
        ensures entries[k] == HourDir(f.year, f.month, f.day, f.hour + k)
      {
        if k == 0 {
          assert entries[0] == HourDir(f.year, f.month, f.day, f.hour);
        } else {
          assert entries[k] == rest[k - 1];
          assert rest[k - 1] == HourDir(g.year, g.month, g.day, g.hour + (k - 1));
          assert g.hour + (k - 1) == f.hour + k;
        }
      }
    }
  }

  /** `AddDate(0, 1, 0)` from the first of a month is the first of the next month. */
  lemma NextMonthStart(f: Time)
    requires f.day == 1
    ensures var n := NextMonth(f.year, f.month);
      AddDate(f, 0, 1, 0) == f.(year := n.year, month := n.month)
  {
    var n := NextMonth(f.year, f.month);
    if f.month == 12 {
      NormalizeMonthValid(f.year + 1, 1);
      assert NormalizeMonth(f.year, 13) == YearMonth(f.year + 1, 1);
    } else {
      NormalizeMonthValid(f.year, f.month + 1);
    }
    NormalizeDayValid(n.year, n.month, 1);
  }

  /** `AddDate(0, 0, 1)` is the next day, or the first of the next month after its last day. */
  lemma NextDayOf(f: Time)
    ensures var n := NextMonth(f.year, f.month);
      AddDate(f, 0, 0, 1) ==
        if f.day < DaysInMonth(f.year, f.month) then f.(day := f.day + 1)
        else f.(year := n.year, month := n.month, day := 1)
  {
    NormalizeMonthValid(f.year, f.month);
    if f.day < DaysInMonth(f.year, f.month) {
      NormalizeDayValid(f.year, f.month, f.day + 1);
    } else {
      var n := NextMonth(f.year, f.month);
      NormalizeDayValid(n.year, n.month, 1);
      assert NormalizeDay(f.year, f.month, f.day + 1) == NormalizeDay(n.year, n.month, 1);
    }
  }

  /**
   * Lines 48-51 started on the first of a month: one entry per month of
   * `f`'s year, in order, and `fromTs` ends on the first of `toMonth`, or on
   * 1 January of the next year after December.
   */
  lemma {:induction false} MonthLoopEntries(f: Time, toMonth: int)
    requires f.day == 1 && toMonth <= 13
    ensures var p := MonthLoop(f, f.month, toMonth);
      forall k :: 0 <= k < |p.entries| ==> p.entries[k] == MonthDir(f.year, f.month + k)
    ensures toMonth <= f.month ==> MonthLoop(f, f.month, toMonth).from == f
    ensures f.month < toMonth <= 12 ==> MonthLoop(f, f.month, toMonth).from == f.(month := toMonth)
    ensures f.month < toMonth == 13 ==> MonthLoop(f, f.month, toMonth).from == f.(year := f.year + 1, month := 1)
    decreases toMonth - f.month
  {
    if f.month < toMonth {
      MonthLoopStep(f, f.month, toMonth);
      NextMonthStart(f);
      var g := AddDate(f, 0, 1, 0);
      var entries := MonthLoop(f, f.month, toMonth).entries;
      var rest := MonthLoop(g, f.month + 1, toMonth).entries;
      if f.month < 12 {
        assert g.month == f.month + 1 && g.year == f.year;
        MonthLoopEntries(g, toMonth);
        forall k | 0 <= k < |entries|
          ensures entries[k] == MonthDir(f.year, f.month + k)
        {
          if k > 0 {
            assert entries[k] == rest[k - 1];
          }
        }
      }
    }
  }

  /**
   * Lines 57-60: one entry per day of `f`'s month, in order, and `fromTs`
   * ends on `toDay`, or on the first of the next month after the month's
   * last day.
   */
  lemma {:induction false} DayLoopEntries(f: Time, toDay: int)
    requires toDay <= DaysInMonth(f.year, f.month) + 1
    ensures var p := DayLoop(f, f.day, toDay);
      forall k :: 0 <= k < |p.entries| ==> p.entries[k] == DayDir(f.year, f.month, f.day + k)
    ensures toDay <= f.day ==> DayLoop(f, f.day, toDay).from == f
    ensures f.day < toDay <= DaysInMonth(f.year, f.month) ==> DayLoop(f, f.day, toDay).from == f.(day := toDay)
    ensures f.day < toDay == DaysInMonth(f.year, f.month) + 1 ==>
      var n := NextMonth(f.year, f.month);
      DayLoop(f, f.day, toDay).from == f.(year := n.year, month := n.month, day := 1)
    decreases toDay - f.day
  {
    if f.day < toDay {
      DayLoopStep(f, f.day, toDay);
      NextDayOf(f);
      var g := AddDate(f, 0, 0, 1);
      var entries := DayLoop(f, f.day, toDay).entries;
      var rest := DayLoop(g, f.day + 1, toDay).entries;
      if f.day < DaysInMonth(f.year, f.month) {
        assert g.day == f.day + 1 && g.month == f.month && g.year == f.year;
        DayLoopEntries(g, toDay);
        forall k | 0 <= k < |entries|
          ensures entries[k] == DayDir(f.year, f.month, f.day + k)
        {
          if k > 0 {
            assert entries[k] == rest[k - 1];
          }
        }
      }
    }
  }

  /**
   * Lines 62-67: when `fromTs` and the second before `toTs` fall on the same
   * day in different hours, the result is the hour entries of that day from
   * `fromTs`'s hour up to, not including, `toTs`'s own hour.
   */
  lemma SameDayHours(f: Time, toTs: Time)
    requires SameDay(f, toTs) && f.hour != Prev(toTs).hour
    ensures TargetDirectories(f, toTs) == Ok(HourRange(f.year, f.month, f.day, f.hour, toTs.hour))
  {
    SameDayIsHourStage(f, toTs);
    HourLoopOneDay(f, toTs.hour);
    assert HourLoop(f, f.hour, toTs.hour).entries == HourRange(f.year, f.month, f.day, f.hour, toTs.hour);
  }

  /**
   * The hour loop reads `toTs`'s hour, not that of the second before it: a
   * range that ends at the next midnight yields nothing at all.
   */
  lemma UntilMidnightIsEmpty(f: Time)
    ensures TargetDirectories(f, Date(f.year, f.month, f.day + 1)) == Ok([])
  {
    var next := Date(f.year, f.month, f.day + 1);
    StartOfNextDay(f);
    SameDayIsHourStage(f, next);
    assert HourLoop(f, f.hour, 0).entries == [];
  }

  /** One whole clock hour starting on the hour yields nothing. */
  lemma AlignedHourIsEmpty(f: Time)
    requires f.minute == 0 && f.second == 0
    ensures TargetDirectories(f, AddHour(f)) == Ok([])
  {
    if f.hour == 23 {
      NormalizeMonthValid(f.year, f.month);
      assert AddHour(f) == Date(f.year, f.month, f.day + 1);
      UntilMidnightIsEmpty(f);
    } else {
      BaseCase(f, AddHour(f));
    }
  }

  // ---------------------------------------------------------------------
  // The year stage
  // ---------------------------------------------------------------------

  /** Years advanced from a 1 January midnight land on the 1 January of the loop bound. */
  lemma {:induction false} YearLoopFromNewYear(y: int, toYear: int)
    ensures YearLoop(Date(y, 1, 1), y, toYear).from == Date(if y < toYear then toYear else y, 1, 1)
    decreases toYear - y
  {
    if y < toYear {
      NewYear(y);
      AddYearToNewYear(y);
      YearLoopFromNewYear(y + 1, toYear);
    }
  }

  lemma YearLoopEntries(f: Time, y: int, toYear: int)
    ensures YearLoop(f, y, toYear).entries == YearRange(y, toYear)
  {}

  /**
   * Lines 29-37: when the range leaves `fromTs`'s year, the result is the
   * listing up to the next 1 January, then the years after `fromTs`'s
   * year up to, not including, `toTs`'s year, then the later stages run
   * from 1 January of `toTs`'s year.
   */
  lemma YearStageShape(f: Time, toTs: Time)
    requires Before(f, toTs) && f.year != Prev(toTs).year
    ensures var inner := TargetDirectories(f, Date(f.year + 1, 1, 1));
      TargetDirectories(f, toTs) ==
        if inner.Err? then inner
        else Prepend(inner.value + YearRange(f.year + 1, toTs.year), MonthStage(Date(toTs.year, 1, 1), toTs))
  {
    BeforePrev(f, toTs);
    PrevBefore(toTs);
    StartOfNextYear(f.year);
    YearStageStep(f, toTs);
    var next := Date(f.year + 1, 1, 1);
    YearLoopFromNewYear(f.year + 1, toTs.year);
    YearLoopEntries(next, next.year, toTs.year);
  }

  // ---------------------------------------------------------------------
  // Entry formats
  // ---------------------------------------------------------------------

  /** The `%02d` segment of a value below 100 is two digits that read back as it. */
  lemma TwoDigits(n: int)
    requires 0 <= n < 100
    ensures |PadInt(n, 2)| == 2 && AllDigits(PadInt(n, 2)) && DigitsValue(PadInt(n, 2)) == n
  {
    PadIntDigits(n, 2);
  }

  /**
   * Lines 49, 58, 64: an hour entry of a four-digit year is `YYYY/MM/DD/HH`,
   * thirteen characters, each segment zero-padded digits reading back as
   * its field.
   */
  lemma HourEntryFormat(y: int, m: int, d: int, h: int)
    requires 0 <= y < 10000 && 0 <= m < 100 && 0 <= d < 100 && 0 <= h < 100
    ensures var e := HourEntry(y, m, d, h);
      |e| == 13 && e[4] == '/' && e[7] == '/' && e[10] == '/'
      && e[..4] == PadInt(y, 4) && AllDigits(e[..4]) && DigitsValue(e[..4]) == y
      && e[5..7] == PadInt(m, 2) && AllDigits(e[5..7]) && DigitsValue(e[5..7]) == m
      && e[8..10] == PadInt(d, 2) && AllDigits(e[8..10]) && DigitsValue(e[8..10]) == d
      && e[11..] == PadInt(h, 2) && AllDigits(e[11..]) && DigitsValue(e[11..]) == h
  {
    PadIntDigits(y, 4);
    TwoDigits(m);
    TwoDigits(d);
    TwoDigits(h);
    Segments(PadInt(y, 4), PadInt(m, 2), PadInt(d, 2), PadInt(h, 2));
  }

  /** Where the four segments of a `YYYY/MM/DD/HH` text sit. */
  lemma Segments(a: string, b: string, c: string, d: string)
    requires |a| == 4 && |b| == 2 && |c| == 2 && |d| == 2
    ensures var e := a + "/" + b + "/" + c + "/" + d;
      |e| == 13 && e[4] == '/' && e[7] == '/' && e[10] == '/'
      && e[..4] == a && e[5..7] == b && e[8..10] == c && e[11..] == d
  {
    var e := a + "/" + b + "/" + c + "/" + d;
    assert e[..4] == a;
    assert e[5..7] == b;
    assert e[8..10] == c;
    assert e[11..] == d;
  }

  /** Line 34 against line 49: year entries are not padded, month entries are. */
  lemma EntryPadding()
    ensures YearEntry(2023) == "2023" && YearEntry(999) == "999"
    ensures MonthEntry(999, 1) == "0999/01"
    ensures HourEntry(2023, 5, 11, 0) == "2023/05/11/00"
  {
    YearTexts();
    assert PadInt(999, 4) == "0999" && PadInt(1, 2) == "01";
    assert PadInt(2023, 4) == "2023" && PadInt(5, 2) == "05";
    assert PadInt(11, 2) == "11" && PadInt(0, 2) == "00";
  }

  lemma YearTexts()
    ensures NatDigits(999) == "999" && NatDigits(2023) == "2023" && NatDigits(11) == "11"
  {
    assert NatDigits(9) == "9" && NatDigits(99) == "99";
    assert NatDigits(2) == "2" && NatDigits(20) == "20" && NatDigits(202) == "202";
    assert NatDigits(1) == "1";
  }

  /** A month entry names the year and month it was made from. */
  lemma MonthEntryInjective(y1: int, m1: int, y2: int, m2: int)
    requires 0 <= y1 < 10000 && 0 <= y2 < 10000 && 0 <= m1 < 100 && 0 <= m2 < 100
    requires MonthEntry(y1, m1) == MonthEntry(y2, m2)
    ensures y1 == y2 && m1 == m2
  {
    PadIntDigits(y1, 4);
    PadIntDigits(y2, 4);
    TwoDigits(m1);
    TwoDigits(m2);
    var e := MonthEntry(y1, m1);
    assert e[..4] == PadInt(y1, 4) && e[5..] == PadInt(m1, 2);
    assert MonthEntry(y2, m2)[..4] == PadInt(y2, 4) && MonthEntry(y2, m2)[5..] == PadInt(m2, 2);
  }

  // ---------------------------------------------------------------------
  // The panics
  // ---------------------------------------------------------------------

  /** The day stage never panics, whatever its inputs. */
  lemma DayStageOk(f: Time, toTs: Time)
    ensures DayStage(f, toTs).Ok?
  {
    if f.day != Prev(toTs).day {
      var next := Date(f.year, f.month, f.day + 1);
      StartOfNextDay(f);
      SameDayIsHourStage(f, next);
    }
  }

  /**
   * Lines 38-52, for any inputs: the month stage fails exactly when the
   * months differ and `fromTs` is in December (line 40) or in a later month
   * than `toTs` (line 43), and it reports the first guard that fires.
   */
  lemma MonthStageOutcome(f: Time, toTs: Time)
    ensures MonthStage(f, toTs).Err? <==>
      f.month != Prev(toTs).month && (f.month == 12 || f.month > toTs.month)
    ensures MonthStage(f, toTs) == Err(DecemberPanic) <==>
      f.month != Prev(toTs).month && f.month == 12
  {
    if f.month != Prev(toTs).month && f.month != 12 && f.month <= toTs.month {
      MonthStageGuardsPass(f, toTs);
    } else if f.month == Prev(toTs).month {
      assert MonthStage(f, toTs) == DayStage(f, toTs);
      DayStageOk(f, toTs);
    }
  }

  /** When neither guard fires, the month stage succeeds. */
  lemma MonthStageGuardsPass(f: Time, toTs: Time)
    requires f.month != Prev(toTs).month && f.month != 12 && f.month <= toTs.month
    ensures MonthStage(f, toTs).Ok?
  {
    var next := Date(f.year, f.month + 1, 1);
    StartOfNextMonth(f.year, f.month);
    assert Prev(next).year == f.year && Prev(next).month == f.month;
    SameMonthIsDayStage(f, next);
    DayStageOk(f, next);
    var inner := TargetDirectories(f, next);
    assert inner.Ok?;
    MonthStageStep(f, toTs);
    var months := MonthLoop(next, next.month, toTs.month);
    DayStageOk(months.from, toTs);
    assert MonthStage(f, toTs) == Prepend(inner.value + months.entries, DayStage(months.from, toTs));
  }

  /** `Date(y + 1, 1, 1)` is later than `t` exactly when `t` is in year `y` or before. */
  lemma BeforeNewYear(t: Time, y: int)
    ensures Before(t, Date(y + 1, 1, 1)) <==> t.year <= y
  {
    NewYear(y + 1);
  }

  /**
   * For every non-empty range (the handler rejects the others): the line 43
   * panic fires exactly when `fromTs` is in February to November and `toTs`
   * is in a later year, that is, at or after 1 January of the year after
   * `fromTs`'s (`BeforeNewYear`), whether in this call or in the
   * recursive call of line 31; the December panic of line 40 never fires.
   */
  lemma PanicCharacterization(f: Time, toTs: Time)
    requires Before(f, toTs)
    ensures TargetDirectories(f, toTs).Err? <==>
      2 <= f.month <= 11 && f.year < toTs.year
    ensures TargetDirectories(f, toTs).Err? ==> TargetDirectories(f, toTs).error == MonthOrderPanic
  {
    if f.year != Prev(toTs).year {
      PanicAcrossYears(f, toTs);
    } else {
      PanicWithinYear(f, toTs);
    }
  }

  /** A range across years panics in the recursive call up to 1 January, if at all. */
  lemma PanicAcrossYears(f: Time, toTs: Time)
    requires Before(f, toTs) && f.year != Prev(toTs).year
    ensures f.year < toTs.year
    ensures TargetDirectories(f, toTs).Err? <==> 2 <= f.month <= 11
    ensures TargetDirectories(f, toTs).Err? ==> TargetDirectories(f, toTs).error == MonthOrderPanic
  {
    BeforePrev(f, toTs);
    PrevYear(toTs);
    assert f.year < Prev(toTs).year <= toTs.year;
    YearStageShape(f, toTs);
    RestOfYearOutcome(f);
    NewYearMonthStageOk(toTs);
  }

  /** The listing up to the next 1 January panics exactly when `fromTs` is in February to November. */
  lemma RestOfYearOutcome(f: Time)
    ensures var inner := TargetDirectories(f, Date(f.year + 1, 1, 1));
      (inner.Err? <==> 2 <= f.month <= 11) && (inner.Err? ==> inner.error == MonthOrderPanic)
  {
    var next := Date(f.year + 1, 1, 1);
    StartOfNextYear(f.year);
    assert TargetDirectories(f, next) == MonthStage(f, next);
    MonthStageOutcome(f, next);
  }

  /** A month stage that starts on 1 January never panics. */
  lemma NewYearMonthStageOk(toTs: Time)
    ensures MonthStage(Date(toTs.year, 1, 1), toTs).Ok?
  {
    NewYear(toTs.year);
    MonthStageOutcome(Date(toTs.year, 1, 1), toTs);
  }

  /** Within one year only a range ending on the next 1 January can panic. */
  lemma PanicWithinYear(f: Time, toTs: Time)
    requires Before(f, toTs) && f.year == Prev(toTs).year
    ensures TargetDirectories(f, toTs).Err? <==>
      2 <= f.month <= 11 && f.year < toTs.year
    ensures TargetDirectories(f, toTs).Err? ==> TargetDirectories(f, toTs).error == MonthOrderPanic
  {
    BeforePrev(f, toTs);
    PrevBefore(toTs);
    BeforeNewYear(toTs, f.year);
    var last := Prev(toTs);
    assert TargetDirectories(f, toTs) == MonthStage(f, toTs);
    MonthStageOutcome(f, toTs);
    PrevYear(toTs);
    if toTs.year != f.year {
      StartOfNextYear(f.year);
      NewYear(f.year + 1);
      assert last.month == 12;
    }
  }

  /** The line 43 panic is reachable: May 2023 to New Year 2024. */
  lemma MonthOrderPanicReachable()
    ensures TargetDirectories(DateTime(2023, 5, 10, 0, 0, 0), DateTime(2024, 1, 1, 0, 0, 0)) == Err(MonthOrderPanic)
  {
    var f := DateTime(2023, 5, 10, 0, 0, 0);
    var t := DateTime(2024, 1, 1, 0, 0, 0);
    assert Before(f, t);
    NewYear(2024);
    PanicCharacterization(f, t);
  }

  /**
   * Lines 39-40 for a reversed range: the December panic needs `fromTs` after
   * `toTs`, a range the handler rejects at line 88 before listing.
   */
  lemma DecemberPanicReversed()
    ensures TargetDirectories(DateTime(2023, 12, 15, 0, 0, 0), DateTime(2023, 11, 1, 0, 0, 0)) == Err(DecemberPanic)
  {
    var f := DateTime(2023, 12, 15, 0, 0, 0);
    var t := DateTime(2023, 11, 1, 0, 0, 0);
    assert NormalizeDay(2023, 11, 0) == NormalizeDay(2023, 10, 31) == Civil(2023, 10, 31);
    assert Prev(t) == DateTime(2023, 10, 31, 23, 59, 59);
    assert TargetDirectories(f, t) == YearStage(f, t) == MonthStage(f, t);
  }

  // ---------------------------------------------------------------------
  // Typical ranges
  // ---------------------------------------------------------------------

  /**
   * A day stage whose `toTs` is midnight of a first of the month contributes
   * nothing: the day loop and the hour loop both read `toTs`'s own fields.
   */
  lemma DayStageToFirstIsEmpty(f: Time, toTs: Time)
    requires toTs.day == 1 && toTs.hour == 0
    ensures DayStage(f, toTs) == Ok([])
  {
    if f.day != Prev(toTs).day {
      var next := Date(f.year, f.month, f.day + 1);
      StartOfNextDay(f);
      DayStageStep(f, toTs);
      UntilMidnightIsEmpty(f);
      assert TargetDirectories(f, next) == Ok([]);
      assert DayLoop(next, next.day, toTs.day) == Progress([], next);
      assert HourLoop(next, next.hour, toTs.hour).entries == [];
      assert HourStage(next, toTs) == Ok([]);
      PrependOk([], [], HourStage(next, toTs));
      var none: seq<Prefix> := [];
      assert none + none == none;
    } else {
      assert HourLoop(f, f.hour, toTs.hour).entries == [];
    }
  }

  /** A whole calendar year, 1 January to the next 1 January, yields nothing. */
  lemma WholeYearIsEmpty(y: int)
    ensures TargetDirectories(Date(y, 1, 1), Date(y + 1, 1, 1)) == Ok([])
  {
    var f := Date(y, 1, 1);
    var t := Date(y + 1, 1, 1);
    NewYear(y);
    StartOfNextYear(y);
    assert TargetDirectories(f, t) == MonthStage(f, t);
    var feb := Date(y, 2, 1);
    StartOfNextMonth(y, 1);
    MonthStageStep(f, t);
    SameMonthIsDayStage(f, feb);
    DayStageToFirstIsEmpty(f, feb);
    assert MonthLoop(feb, feb.month, t.month) == Progress([], feb);
    DayStageToFirstIsEmpty(feb, t);
  }

  /** The first example range: the year 2023. */
  lemma Year2023IsEmpty()
    ensures TargetDirectories(DateTime(2023, 1, 1, 0, 0, 0), DateTime(2024, 1, 1, 0, 0, 0)) == Ok([])
  {
    WholeYearIsEmpty(2023);
    NewYear(2023);
    NewYear(2024);
  }

  /** Two hours across a month end, 31 May 23:00 to 1 June 01:00, yield nothing. */
  lemma MonthEndIsEmpty()
    ensures TargetDirectories(DateTime(2023, 5, 31, 23, 0, 0), DateTime(2023, 6, 1, 1, 0, 0)) == Ok([])
  {
    var f := DateTime(2023, 5, 31, 23, 0, 0);
    var t := DateTime(2023, 6, 1, 1, 0, 0);
    var jun1 := Date(2023, 6, 1);
    StartOfNextMonth(2023, 5);
    assert Prev(t) == DateTime(2023, 6, 1, 0, 59, 59);
    assert TargetDirectories(f, t) == MonthStage(f, t);
    MonthStageStep(f, t);
    BaseCase(f, jun1);
    assert MonthLoop(jun1, jun1.month, t.month) == Progress([], jun1);
    assert DayStage(jun1, t) == HourStage(jun1, t);
    assert HourStage(jun1, t) == Ok([]);
    assert MonthStage(f, t) == Prepend([] + [], Ok([]));
    PrependOk([], [], Ok([]));
    var none: seq<Prefix> := [];
    assert none + none == none;
  }

  /**
   * A 24-hour window from 10 May 14:30 to 11 May 14:30 yields only the
   * hours 00 to 13 of 11 May.
   */
  lemma DayWindowExample()
    ensures TargetDirectories(DateTime(2023, 5, 10, 14, 30, 0), DateTime(2023, 5, 11, 14, 30, 0))
      == Ok(HourRange(2023, 5, 11, 0, 14))
  {
    var f: Time := DateTime(2023, 5, 10, 14, 30, 0);
    var t: Time := DateTime(2023, 5, 11, 14, 30, 0);
    assert Prev(t) == DateTime(2023, 5, 11, 14, 29, 59);
    SameMonthIsDayStage(f, t);
    DayStageStep(f, t);
    UntilMidnightIsEmpty(f);
    var may11 := Date(f.year, f.month, f.day + 1);
    StartOfNextDay(f);
    assert may11 == DateTime(2023, 5, 11, 0, 0, 0);
    assert DayLoop(may11, may11.day, t.day) == Progress([], may11);
    HourLoopOneDay(may11, t.hour);
    assert HourLoop(may11, may11.hour, t.hour).entries == HourRange(2023, 5, 11, 0, 14);
    assert HourStage(may11, t) == Ok(HourRange(2023, 5, 11, 0, 14));
    assert TargetDirectories(f, t) == Prepend([] + [], HourStage(may11, t));
    PrependOk([], [], HourStage(may11, t));
    assert [] + HourRange(2023, 5, 11, 0, 14) == HourRange(2023, 5, 11, 0, 14);
  }
}

/**
 * The query handling of the datasource's `/list` endpoint up to the
 * directory walk: parsing `from` and `to`, their defaults, the range check,
 * and the prefixes the walk is then given.
 */
module ListHandler {
  import opened Wrappers
  import opened Decimal
  import opened Calendar
  import opened Clock
  import opened Datasource
  import opened ListingProperties

  /**
   * `parseUnixTimeOrDefault`: an empty parameter gives the default; anything
   * else is read by `strconv.ParseInt(s, 10, 64)` as seconds since the epoch.
   */
  function ParseUnixTimeOrDefault(s: string, default: Time): (r: Result<Time, NumError>)
    ensures r.Ok? && s != "" ==> ParseInt(s).Ok? && ToUnix(r.value) == ParseInt(s).value
  {
    if |s| == 0 then Ok(default)
    else
      match ParseInt(s)
      case Err(e) => Err(e)
      case Ok(n) =>
        ToUnixFromUnix(n);
        Ok(FromUnix(n))
  }

  /** Why a request is answered with status 400. */
  datatype Rejection =
    | BadNumber(error: NumError)   // a parameter `strconv.ParseInt` refused
    | EmptyRange                   // "from should be less than to"

  datatype Response =
    | Rejected(reason: Rejection)
    | Walk(prefixes: seq<string>)  // the prefixes handed to the directory walk
    | Panicked(panic: Panic)       // a `log.Panic` inside the decomposition

  const Day: int := 24 * SecondsPerHour

  /** The handler's lines 78-94, given the two query parameters and the clock reading `now`. */
  function HandleList(fromParam: string, toParam: string, now: Time): Response
  {
    match ParseUnixTimeOrDefault(fromParam, AddSeconds(now, -Day))
    case Err(e) => Rejected(BadNumber(e))
    case Ok(fromTs) =>
      match ParseUnixTimeOrDefault(toParam, AddSeconds(fromTs, Day))
      case Err(e) => Rejected(BadNumber(e))
      case Ok(toTs) => RespondToRange(fromTs, toTs)
  }

  /** Lines 88-94: the range check, then the decomposition. */
  function RespondToRange(fromTs: Time, toTs: Time): Response
  {
    if !Before(fromTs, toTs) then Rejected(EmptyRange)
    else
      match TargetDirectories(fromTs, toTs)
      case Ok(ds) => Walk(Paths(ds))
      case Err(p) => Panicked(p)
  }

  // ---------------------------------------------------------------------
  // Parsing
  // ---------------------------------------------------------------------

  /**
   * Lines 15-24: the empty string gives the default; otherwise the result
   * is a time exactly when the text is an optionally signed decimal in the
   * int64 range, and that time is the number's seconds after the epoch; a
   * well-formed decimal out of range is a range error.
   */
  lemma ParseUnixTimeCharacterization(s: string, default: Time)
    ensures s == "" ==> ParseUnixTimeOrDefault(s, default) == Ok(default)
    ensures s != "" ==>
      (ParseUnixTimeOrDefault(s, default).Ok? <==> IsSignedDecimal(s) && InInt64(SignedValue(s)))
    ensures s != "" && ParseUnixTimeOrDefault(s, default).Ok? ==>
      ToUnix(ParseUnixTimeOrDefault(s, default).value) == SignedValue(s)
    ensures IsSignedDecimal(s) && ParseUnixTimeOrDefault(s, default).Err? ==>
      ParseUnixTimeOrDefault(s, default).error == RangeError
  {
    if s != "" {
      ParseIntCharacterization(s);
    }
  }

  /** Decimal seconds read back as the time they name. */
  lemma ParseUnixTimeRoundTrip(t: Time, default: Time)
    requires InInt64(ToUnix(t))
    ensures ParseUnixTimeOrDefault(Itoa(ToUnix(t)), default) == Ok(t)
  {
    ItoaRoundTrip(ToUnix(t));
    FromUnixToUnix(t);
  }

  // ---------------------------------------------------------------------
  // Defaults and validation
  // ---------------------------------------------------------------------

  lemma AddSecondsIsLater(t: Time, k: int)
    ensures ToUnix(AddSeconds(t, k)) == ToUnix(t) + k
  {
    var n := ToUnix(t) + k;
    assert AddSeconds(t, k) == FromUnix(n);
    ToUnixFromUnix(n);
  }

  /**
   * Line 83: without a `to` parameter the range is the day that starts at
   * the parsed `from` (not at `now`), and it is never rejected.
   */
  lemma DefaultToFollowsFrom(fromParam: string, now: Time)
    requires ParseUnixTimeOrDefault(fromParam, AddSeconds(now, -Day)).Ok?
    ensures var f := ParseUnixTimeOrDefault(fromParam, AddSeconds(now, -Day)).value;
      var t := AddSeconds(f, Day);
      ToUnix(t) == ToUnix(f) + Day
      && HandleList(fromParam, "", now) ==
        (match TargetDirectories(f, t) case Ok(ds) => Walk(Paths(ds)) case Err(p) => Panicked(p))
  {
    var f := ParseUnixTimeOrDefault(fromParam, AddSeconds(now, -Day)).value;
    AddSecondsIsLater(f, Day);
    BeforeIsEarlier(f, AddSeconds(f, Day));
  }

  /**
   * Lines 78 and 83: with neither parameter the range is the 24 hours before
   * `now`, for `now` at a whole second.
   */
  lemma DefaultsAreLastDay(now: Time)
    ensures HandleList("", "", now) ==
      (match TargetDirectories(AddSeconds(now, -Day), now) case Ok(ds) => Walk(Paths(ds)) case Err(p) => Panicked(p))
  {
    AddSecondsUndone(now);
    DefaultToFollowsFrom("", now);
  }

  /** Going back a day and then forward a day returns to the same time. */
  lemma AddSecondsUndone(t: Time)
    ensures AddSeconds(AddSeconds(t, -Day), Day) == t
  {
    var back := AddSeconds(t, -Day);
    AddSecondsIsLater(t, -Day);
    AddSecondsIsLater(back, Day);
    ToUnixInjective(AddSeconds(back, Day), t);
  }

  /**
   * Lines 78-91: the decomposition runs only on two parameters that parse,
   * or are defaulted, into a non-empty range; a parse error in either, or
   * `from` not before `to`, is rejected first, the `from` error taking
   * precedence.
   */
  lemma ValidatedBeforeDecomposition(fromParam: string, toParam: string, now: Time)
    ensures var pf := ParseUnixTimeOrDefault(fromParam, AddSeconds(now, -Day));
      var r := HandleList(fromParam, toParam, now);
      (pf.Err? ==> r == Rejected(BadNumber(pf.error)))
      && (pf.Ok? ==>
        var pt := ParseUnixTimeOrDefault(toParam, AddSeconds(pf.value, Day));
        (pt.Err? ==> r == Rejected(BadNumber(pt.error)))
        && (pt.Ok? && !Before(pf.value, pt.value) ==> r == Rejected(EmptyRange))
        && (pt.Ok? && Before(pf.value, pt.value) ==>
          !r.Rejected? && (r.Walk? <==> TargetDirectories(pf.value, pt.value).Ok?)))
  {}

  // ---------------------------------------------------------------------
  // Panics seen from the handler
  // ---------------------------------------------------------------------

  /**
   * A request is answered by a panic exactly when the parsed `from` is in
   * February to November and the parsed `to` lies in a later year, that is,
   * at or after the next 1 January; the December panic never reaches the
   * handler.
   */
  lemma HandlerPanics(fromParam: string, toParam: string, now: Time)
    ensures var r := HandleList(fromParam, toParam, now);
      r.Panicked? ==> r.panic == MonthOrderPanic
    ensures var pf := ParseUnixTimeOrDefault(fromParam, AddSeconds(now, -Day));
      pf.Ok? ==>
        var pt := ParseUnixTimeOrDefault(toParam, AddSeconds(pf.value, Day));
        pt.Ok? ==>
          (HandleList(fromParam, toParam, now).Panicked? <==>
            Before(pf.value, pt.value) && 2 <= pf.value.month <= 11
            && pf.value.year < pt.value.year)
  {
    HandleListParsed(fromParam, toParam, now);
    var pf := ParseUnixTimeOrDefault(fromParam, AddSeconds(now, -Day));
    if pf.Ok? {
      var pt := ParseUnixTimeOrDefault(toParam, AddSeconds(pf.value, Day));
      if pt.Ok? {
        RangePanics(pf.value, pt.value);
      }
    }
  }

  /** Once both parameters parse, the response is the range's. */
  lemma HandleListParsed(fromParam: string, toParam: string, now: Time)
    ensures var pf := ParseUnixTimeOrDefault(fromParam, AddSeconds(now, -Day));
      var r := HandleList(fromParam, toParam, now);
      (pf.Err? ==> r.Rejected?)
      && (pf.Ok? ==>
        var pt := ParseUnixTimeOrDefault(toParam, AddSeconds(pf.value, Day));
        (pt.Err? ==> r.Rejected?) && (pt.Ok? ==> r == RespondToRange(pf.value, pt.value)))
  {}

  /** The same for two parsed times. */
  lemma RangePanics(fromTs: Time, toTs: Time)
    ensures var r := RespondToRange(fromTs, toTs);
      (r.Panicked? ==> r.panic == MonthOrderPanic)
      && (r.Panicked? <==>
        Before(fromTs, toTs) && 2 <= fromTs.month <= 11 && fromTs.year < toTs.year)
  {
    if Before(fromTs, toTs) {
      PanicCharacterization(fromTs, toTs);
    }
  }

  /** 1 January of the next year is at least two days after any date before December. */
  lemma NewYearAfterNovember(f: Time)
    requires f.month <= 11
    ensures DaysFromCivil(f.year, f.month, f.day) + 2 <= DaysFromCivil(f.year + 1, 1, 1)
  {
    DaysFromCivilMono(DateOf(f), Civil(f.year, 12, 1));
    NewYearFollowsDecember(f.year + 1);
  }

  /** A one-day range never panics: it cannot reach the next 1 January from before December. */
  lemma OneDayNeverPanics(f: Time)
    ensures TargetDirectories(f, AddSeconds(f, Day)).Ok?
  {
    var t := AddSeconds(f, Day);
    AddSecondsIsLater(f, Day);
    BeforeIsEarlier(f, t);
    PanicCharacterization(f, t);
    if 2 <= f.month <= 11 {
      OneDaySameYear(f);
    }
  }

  /** A day after a time in February to November is still in the same year. */
  lemma OneDaySameYear(f: Time)
    requires 2 <= f.month <= 11
    ensures AddSeconds(f, Day).year <= f.year
  {
    var t := AddSeconds(f, Day);
    AddSecondsIsLater(f, Day);
    var jan := Date(f.year + 1, 1, 1);
    NewYear(f.year + 1);
    NewYearAfterNovember(f);
    TimeOfDayBound(f);
    DayAhead(DaysFromCivil(f.year, f.month, f.day), DaysFromCivil(f.year + 1, 1, 1),
      f.hour * SecondsPerHour + f.minute * 60 + f.second);
    assert ToUnix(t) < ToUnix(jan);
    BeforeIsEarlier(t, jan);
    BeforeNewYear(t, f.year);
  }

  /** A day after a time of day `d` is still before a date two days later. */
  lemma DayAhead(d: int, later: int, timeOfDay: int)
    requires d + 2 <= later && 0 <= timeOfDay < SecondsPerDay
    ensures d * SecondsPerDay + timeOfDay + Day < later * SecondsPerDay
  {}

  /** A request without a `to` parameter is never answered by a panic. */
  lemma DefaultToNeverPanics(fromParam: string, now: Time)
    ensures !HandleList(fromParam, "", now).Panicked?
  {
    var pf := ParseUnixTimeOrDefault(fromParam, AddSeconds(now, -Day));
    if pf.Ok? {
      DefaultToFollowsFrom(fromParam, now);
      OneDayNeverPanics(pf.value);
    }
  }
}

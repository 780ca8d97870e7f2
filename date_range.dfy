/**
 * `get_date_range` and `get_current_month_range`: the `[timeMin, timeMax]`
 * window a listing asks the calendar service for. The clock reading
 * `datetime.utcnow()` is the parameter `now`, and `dateutil`'s `parse` is the
 * parameter `parse`, whose `None` stands for any exception it raises.
 *
 * Each window is closed: it ends one second before the next day, week or month
 * starts. `start` and `end` are naive wall-clock values; the `Z` the rendering
 * appends is only a label.
 */
module DateRange {
  import opened Wrappers
  import opened CivilTime
  import opened IsoFormat

  datatype TimeRange = TimeRange(start: DateTime, end: DateTime)

  /** A date-time at 23:59:59 with no microseconds: the last instant the source's windows include. */
  predicate IsLastSecond(t: DateTime) {
    t.hour == 23 && t.minute == 59 && t.second == 59 && t.microsecond == 0
  }

  /** `start + timedelta(seconds=length) - timedelta(seconds=1)`: the window of `length` seconds from `start`. */
  function Span(start: DateTime, length: int): (r: Result<TimeRange, DateError>)
    requires start.Valid()
    ensures r.Ok? <==> 0 <= Seconds(start) + length - 1 && Seconds(start) + length < MaxSeconds
    ensures r.Err? ==> r.error == OverflowError
    ensures r.Ok? ==> && r.value.start == start && r.value.end.Valid()
                      && Seconds(r.value.end) == Seconds(start) + length - 1
                      && r.value.end.microsecond == start.microsecond
  {
    var next :- AddSeconds(start, length);
    var end :- AddSeconds(next, -1);
    Ok(TimeRange(start, end))
  }

  /** `start = datetime(year, month, day)` and `end = start + timedelta(days=1) - timedelta(seconds=1)`. */
  function DayRange(year: int, month: int, day: int): Result<TimeRange, DateError>
  {
    var start :- NewDateTime(year, month, day);
    Span(start, 86400)
  }

  /**
   * `now - timedelta(days=now.weekday())` truncated by `datetime(start.year,
   * start.month, start.day)`: midnight of the Monday on or before `now`.
   */
  function WeekStart(now: DateTime): Result<DateTime, DateError>
    requires now.Valid()
  {
    match AddSeconds(now, -Weekday(now) * 86400)
    case Err(e) => Err(e)
    case Ok(monday) => NewDateTime(monday.year, monday.month, monday.day)
  }

  /** The `"this_week"` branch: from the week's start, seven days less a second. */
  function WeekRange(now: DateTime): Result<TimeRange, DateError>
    requires now.Valid()
  {
    match WeekStart(now)
    case Err(e) => Err(e)
    case Ok(start) => Span(start, 7 * 86400)
  }

  /**
   * The `"this_month"` window, written out three times in the source with the
   * same statements: `get_current_month_range`, the `"this_month"` branch and
   * the fallback of the `except` clause. First day at midnight, to one second
   * before the first day of the next month, rolling December over to January.
   */
  function MonthRange(now: DateTime): Result<TimeRange, DateError>
    requires now.Valid()
  {
    match NewDateTime(now.year, now.month, 1)
    case Err(e) => Err(e)
    case Ok(start) =>
      match NextMonthStart(now.year, now.month)
      case Err(e) => Err(e)
      case Ok(next) =>
        match AddSeconds(next, -1)
        case Err(e) => Err(e)
        case Ok(end) => Ok(TimeRange(start, end))
  }

  /** `datetime(year + 1, 1, 1)` in December, `datetime(year, month + 1, 1)` otherwise. */
  function NextMonthStart(year: int, month: int): Result<DateTime, DateError>
  {
    if month == 12 then NewDateTime(year + 1, 1, 1) else NewDateTime(year, month + 1, 1)
  }

  /**
   * The window `get_date_range` computes, before rendering. Every window it
   * gives has valid ends, starts at a midnight, ends at 23:59:59 and starts
   * before it ends.
   */
  function ResolveRange(rangeType: string, now: DateTime, parse: string -> Option<Date>)
    : (r: Result<TimeRange, DateError>)
    requires now.Valid()
    ensures r.Ok? ==> WellOrdered(r.value)
  {
    if rangeType == "today" then
      DayValid(now.year, now.month, now.day);
      DayRange(now.year, now.month, now.day)
    else if rangeType == "this_week" then
      WeekValid(now);
      WeekRange(now)
    else if rangeType == "this_month" then
      MonthValid(now);
      MonthRange(now)
    else
      // The bare `except:` catches a parse failure, a `ValueError` and an `OverflowError` alike.
      var parsed := parse(rangeType);
      MonthValid(now);
      if parsed.Some? && DayRange(parsed.value.year, parsed.value.month, parsed.value.day).Ok?
      then
        DayValid(parsed.value.year, parsed.value.month, parsed.value.day);
        DayRange(parsed.value.year, parsed.value.month, parsed.value.day)
      else MonthRange(now)
  }

  function RenderRange(r: TimeRange): (string, string)
    requires r.start.Valid() && r.end.Valid()
  {
    (Render(r.start), Render(r.end))
  }

  /**
   * `get_date_range(range_type)`: the window as the pair of strings sent to
   * the service. It fails exactly when the window cannot be computed, and the
   * two strings read back as the window's ends.
   */
  function GetDateRange(rangeType: string, now: DateTime, parse: string -> Option<Date>)
    : (r: Result<(string, string), DateError>)
    requires now.Valid()
    ensures r.Ok? <==> ResolveRange(rangeType, now, parse).Ok?
    ensures r.Err? ==> r.error == ResolveRange(rangeType, now, parse).error
    ensures r.Ok? ==> var w := ResolveRange(rangeType, now, parse).value;
      ParseRendered(r.value.0) == Some(w.start) && ParseRendered(r.value.1) == Some(w.end)
  {
    var range :- ResolveRange(rangeType, now, parse);
    RenderRoundTrip(range.start);
    RenderRoundTrip(range.end);
    Ok(RenderRange(range))
  }

  /**
   * `get_current_month_range()`: the strings of the first day of `now`'s month
   * at midnight and its last day at 23:59:59. Only December 9999 fails, with
   * the `ValueError` of `datetime(10000, 1, 1)`.
   */
  function GetCurrentMonthRange(now: DateTime): (r: Result<(string, string), DateError>)
    requires now.Valid()
    ensures r.Ok? <==> !(now.year == MaxYear && now.month == 12)
    ensures r.Err? ==> r.error == ValueError
    ensures r.Ok? ==>
      && ParseRendered(r.value.0) == Some(DateTime(now.year, now.month, 1, 0, 0, 0, 0))
      && ParseRendered(r.value.1) == Some(DateTime(now.year, now.month, DaysInMonth(now.year, now.month), 23, 59, 59, 0))
  {
    MonthRangeSpec(now);
    var range :- MonthRange(now);
    RenderRoundTrip(range.start);
    RenderRoundTrip(range.end);
    Ok(RenderRange(range))
  }

  // ---------------------------------------------------------------------------
  // What each window is.
  // ---------------------------------------------------------------------------

  /**
   * A day's window runs from its midnight to its 23:59:59. It fails with
   * `ValueError` for a date that does not exist and with `OverflowError` for
   * 9999-12-31, whose next midnight a `datetime` cannot hold.
   */
  lemma DayRangeSpec(year: int, month: int, day: int)
    ensures var r := DayRange(year, month, day);
      && (r.Ok? <==> NewDateTime(year, month, day).Ok? && !(year == MaxYear && month == 12 && day == 31))
      && (r.Ok? ==> r.value == TimeRange(DateTime(year, month, day, 0, 0, 0, 0),
                                          DateTime(year, month, day, 23, 59, 59, 0)))
      && (r.Err? ==> r.error == (if NewDateTime(year, month, day).Ok? then OverflowError else ValueError))
  {
    var created := NewDateTime(year, month, day);
    if created.Ok? {
      var start := created.value;
      var last := DateTime(year, month, day, 23, 59, 59, 0);
      OrdinalBounds(start);
      SpanSpec(start, 1);
      var r := DayRange(year, month, day);
      if r.Ok? {
        OrdinalInjective(Date(year, month, day), Date(r.value.end.year, r.value.end.month, r.value.end.day));
      }
    }
  }

  /**
   * The week's window runs from Monday 00:00:00 on or before `now` to the
   * Sunday after at 23:59:59, exactly seven days less one second later. It
   * fails only when that Sunday's next midnight lies past 9999-12-31.
   */
  lemma WeekRangeSpec(now: DateTime)
    requires now.Valid()
    ensures var r := WeekRange(now);
      var monday := Ordinal(now.year, now.month, now.day) - Weekday(now);
      && (r.Ok? <==> monday + 7 <= MaxOrdinal)
      && (r.Err? ==> r.error == OverflowError)
      && (r.Ok? ==>
            && r.value.start.Valid() && r.value.end.Valid()
            && r.value.start.IsMidnight() && Weekday(r.value.start) == 0
            && Ordinal(r.value.start.year, r.value.start.month, r.value.start.day) == monday
            && IsLastSecond(r.value.end) && Weekday(r.value.end) == 6
            && Seconds(r.value.end) == Seconds(r.value.start) + 7 * 86400 - 1
            && Micros(r.value.start) <= Micros(now)
            && Seconds(now) <= Seconds(r.value.end))
  {
    BackToMonday(now);
    var monday := AddSeconds(now, -Weekday(now) * 86400).value;
    var start := Midnight(monday);
    WeekStartOf(now, monday, start);
    WeekRangeOf(now, start);
    SpanSpec(start, 7);
    var r := Span(start, 7 * 86400);
    if r.Ok? {
      WeekdayLater(start, r.value.end, 6);
    }
  }

  lemma WeekStartOf(now: DateTime, monday: DateTime, start: DateTime)
    requires now.Valid() && monday.Valid() && start.Valid()
    requires AddSeconds(now, -Weekday(now) * 86400) == Ok(monday)
    requires NewDateTime(monday.year, monday.month, monday.day) == Ok(start)
    ensures WeekStart(now) == Ok(start)
  {
  }

  lemma WeekRangeOf(now: DateTime, start: DateTime)
    requires now.Valid() && start.Valid()
    requires WeekStart(now) == Ok(start)
    ensures WeekRange(now) == Span(start, 7 * 86400)
  {
  }

  /** Going back `now.weekday()` days never leaves the calendar, and lands on a Monday. */
  lemma BackToMonday(now: DateTime)
    requires now.Valid()
    ensures var back := AddSeconds(now, -Weekday(now) * 86400);
      && back.Ok?
      && Ordinal(back.value.year, back.value.month, back.value.day)
         == Ordinal(now.year, now.month, now.day) - Weekday(now)
      && Weekday(Midnight(back.value)) == 0
      && Micros(Midnight(back.value)) <= Micros(now)
      && Seconds(now) < Seconds(Midnight(back.value)) + 7 * 86400
  {
    var o := Ordinal(now.year, now.month, now.day);
    var w := Weekday(now);
    var tod := now.hour * 3600 + now.minute * 60 + now.second;
    WeekdayFacts(now, o, w, tod);
    var back := AddSeconds(now, -w * 86400);
    MondayOf(now, back.value, o, w, tod);
  }

  lemma WeekdayFacts(now: DateTime, o: int, w: int, tod: int)
    requires now.Valid() && o == Ordinal(now.year, now.month, now.day) && w == Weekday(now)
    requires tod == now.hour * 3600 + now.minute * 60 + now.second
    ensures 0 <= w < o && w < 7 && (o - w + 6) % 7 == 0
    ensures Seconds(now) == (o - 1) * 86400 + tod
    ensures 0 <= Seconds(now) - w * 86400 < MaxSeconds
  {
    OrdinalBounds(now);
    SecondsBounds(now);
    WeekdayBack(o);
  }

  lemma MondayOf(now: DateTime, monday: DateTime, o: int, w: int, tod: int)
    requires now.Valid() && monday.Valid() && 0 <= w < o && w < 7 && (o - w + 6) % 7 == 0
    requires tod == now.hour * 3600 + now.minute * 60 + now.second
    requires Seconds(now) == (o - 1) * 86400 + tod
    requires Seconds(monday) == Seconds(now) - w * 86400 && monday.microsecond == now.microsecond
    ensures Ordinal(monday.year, monday.month, monday.day) == o - w
    ensures Weekday(Midnight(monday)) == 0
    ensures Micros(Midnight(monday)) <= Micros(now)
    ensures Seconds(now) < Seconds(Midnight(monday)) + 7 * 86400
  {
    assert Seconds(monday) == (o - w - 1) * 86400 + tod;
    SecondsSplit(monday, o - w - 1, tod);
    var start := Midnight(monday);
    assert Ordinal(start.year, start.month, start.day) == o - w;
    assert Seconds(start) == (o - w - 1) * 86400;
    WeekdayOf(start, o - w);
  }

  lemma WeekdayOf(t: DateTime, o: int)
    requires t.Valid() && Ordinal(t.year, t.month, t.day) == o
    ensures Weekday(t) == (o + 6) % 7
  {
  }

  /** A day `k` days after a Monday has weekday `k`, for `k` below 7. */
  lemma WeekdayLater(monday: DateTime, later: DateTime, k: int)
    requires monday.Valid() && later.Valid() && Weekday(monday) == 0 && 0 <= k < 7
    requires Ordinal(later.year, later.month, later.day) == Ordinal(monday.year, monday.month, monday.day) + k
    ensures Weekday(later) == k
  {
    WeekdayShift(Ordinal(monday.year, monday.month, monday.day), k);
  }

  lemma WeekdayShift(o: int, k: int)
    requires (o + 6) % 7 == 0 && 0 <= k < 7
    ensures (o + k + 6) % 7 == k
  {
    assert o + 6 == 7 * ((o + 6) / 7);
    assert o + k + 6 == 7 * ((o + 6) / 7) + k;
  }

  /**
   * From a midnight, a span of whole days less one second ends at 23:59:59 of
   * its last day; it overflows when the day after that is past 9999-12-31.
   */
  lemma SpanSpec(start: DateTime, days: int)
    requires start.Valid() && start.IsMidnight() && days >= 1
    ensures var r := Span(start, days * 86400);
      var first := Ordinal(start.year, start.month, start.day);
      && (r.Ok? <==> first + days <= MaxOrdinal)
      && (r.Err? ==> r.error == OverflowError)
      && (r.Ok? ==>
            && r.value.start == start && r.value.end.Valid() && IsLastSecond(r.value.end)
            && Ordinal(r.value.end.year, r.value.end.month, r.value.end.day) == first + days - 1
            && Seconds(r.value.end) == Seconds(start) + days * 86400 - 1)
  {
    var first := Ordinal(start.year, start.month, start.day);
    OrdinalBounds(start);
    assert Seconds(start) == (first - 1) * 86400;
    var next := AddSeconds(start, days * 86400);
    assert Seconds(start) + days * 86400 == (first + days - 1) * 86400;
    if next.Ok? {
      var end := AddSeconds(next.value, -1).value;
      assert Seconds(end) == (first + days - 2) * 86400 + 86399;
      SecondsSplit(end, first + days - 2, 86399);
    }
  }

  /** The Monday on or before day `o` exists, and lies 0 to 6 days back. */
  lemma WeekdayBack(o: int)
    requires o >= 1
    ensures var w := (o + 6) % 7;
      && 0 <= w <= 6 && w <= o - 1
      && (o - w + 6) % 7 == 0
      && (o - w + 12) % 7 == 6
  {
    var w := (o + 6) % 7;
    assert o + 6 == 7 * ((o + 6) / 7) + w;
    assert o - w + 6 == 7 * ((o + 6) / 7);
  }

  /**
   * The month's window runs from day 1 at 00:00:00 to the month's last day
   * (29 February in a leap year, 31 December in December) at 23:59:59. It
   * fails, with `ValueError`, only in December 9999, where the next month's
   * first day cannot be built.
   */
  lemma MonthRangeSpec(now: DateTime)
    requires now.Valid()
    ensures var r := MonthRange(now);
      && (r.Ok? <==> !(now.year == MaxYear && now.month == 12))
      && (r.Err? ==> r.error == ValueError)
      && (r.Ok? ==> r.value == TimeRange(DateTime(now.year, now.month, 1, 0, 0, 0, 0),
                                          DateTime(now.year, now.month, DaysInMonth(now.year, now.month),
                                                   23, 59, 59, 0)))
  {
    var first := DateTime(now.year, now.month, 1, 0, 0, 0, 0);
    var last := DateTime(now.year, now.month, DaysInMonth(now.year, now.month), 23, 59, 59, 0);
    assert NewDateTime(now.year, now.month, 1) == Ok(first);
    NextMonthStartSpec(now.year, now.month);
    var created := NextMonthStart(now.year, now.month);
    if created.Ok? {
      SecondBefore(created.value, last);
      MonthRangeOf(now, first, created.value, last);
    }
  }

  lemma MonthRangeOf(now: DateTime, first: DateTime, next: DateTime, last: DateTime)
    requires now.Valid() && next.Valid()
    requires NewDateTime(now.year, now.month, 1) == Ok(first)
    requires NextMonthStart(now.year, now.month) == Ok(next)
    requires AddSeconds(next, -1) == Ok(last)
    ensures MonthRange(now) == Ok(TimeRange(first, last))
  {
  }

  /** The first day of the next month exists unless the month is December 9999, and follows the month's last day. */
  lemma NextMonthStartSpec(year: int, month: int)
    requires MinYear <= year <= MaxYear && 1 <= month <= 12
    ensures var r := NextMonthStart(year, month);
      && (r.Ok? <==> !(year == MaxYear && month == 12))
      && (r.Err? ==> r.error == ValueError)
      && (r.Ok? ==> r.value.Valid() && r.value.IsMidnight()
                    && Ordinal(r.value.year, r.value.month, r.value.day)
                       == Ordinal(year, month, DaysInMonth(year, month)) + 1)
  {
    if month == 12 {
      DaysBeforeNextYear(year);
      MonthsFillYear(year);
    } else {
      DaysBeforeNextMonth(year, month);
    }
  }

  /** One second before a midnight is 23:59:59 of the day before. */
  lemma SecondBefore(next: DateTime, last: DateTime)
    requires next.Valid() && next.IsMidnight() && last.Valid() && IsLastSecond(last)
    requires Ordinal(next.year, next.month, next.day) == Ordinal(last.year, last.month, last.day) + 1
    ensures AddSeconds(next, -1) == Ok(last)
  {
    OrdinalBounds(last);
    var o := Ordinal(last.year, last.month, last.day);
    assert Seconds(next) == o * 86400;
    assert Seconds(last) == o * 86400 - 1;
    var prev := AddSeconds(next, -1);
    assert prev.Ok?;
    SecondsInjective(prev.value, last);
  }

  // ---------------------------------------------------------------------------
  // Properties of get_date_range as a whole.
  // ---------------------------------------------------------------------------

  /** `"today"` is the day of `now`, from midnight to 23:59:59. */
  lemma TodayRange(now: DateTime, parse: string -> Option<Date>)
    requires now.Valid()
    ensures var r := ResolveRange("today", now, parse);
      && (r.Ok? <==> !(now.year == MaxYear && now.month == 12 && now.day == 31))
      && (r.Ok? ==> r.value == TimeRange(Midnight(now),
                                          DateTime(now.year, now.month, now.day, 23, 59, 59, 0)))
  {
    DayRangeSpec(now.year, now.month, now.day);
  }

  /**
   * A phrase `parse` reads as a real date other than 9999-12-31 gives that
   * day's window; every other phrase that is not a keyword gives exactly the
   * `"this_month"` window, the one `get_current_month_range` gives too.
   */
  lemma ParsedOrFallback(rangeType: string, now: DateTime, parse: string -> Option<Date>)
    requires now.Valid()
    requires rangeType != "today" && rangeType != "this_week" && rangeType != "this_month"
    ensures var p := parse(rangeType);
      var r := ResolveRange(rangeType, now, parse);
      if p.Some? && NewDateTime(p.value.year, p.value.month, p.value.day).Ok?
         && !(p.value.year == MaxYear && p.value.month == 12 && p.value.day == 31)
      then r.Ok? && r.value == TimeRange(DateTime(p.value.year, p.value.month, p.value.day, 0, 0, 0, 0),
                                         DateTime(p.value.year, p.value.month, p.value.day, 23, 59, 59, 0))
      else
        && r == ResolveRange("this_month", now, parse)
        && GetDateRange(rangeType, now, parse) == GetCurrentMonthRange(now)
        && GetDateRange(rangeType, now, parse) == GetDateRange("this_month", now, parse)
  {
    var p := parse(rangeType);
    if p.Some? {
      DayRangeSpec(p.value.year, p.value.month, p.value.day);
    }
  }

  /** Both ends are valid, the window starts at a midnight, ends at 23:59:59, and starts before it ends. */
  predicate WellOrdered(r: TimeRange) {
    && r.start.Valid() && r.end.Valid() && r.start.IsMidnight()
    && IsLastSecond(r.end) && Micros(r.start) < Micros(r.end)
  }

  lemma DayValid(year: int, month: int, day: int)
    ensures DayRange(year, month, day).Ok? ==> WellOrdered(DayRange(year, month, day).value)
  {
    DayRangeSpec(year, month, day);
  }

  lemma WeekValid(now: DateTime)
    requires now.Valid()
    ensures WeekRange(now).Ok? ==> WellOrdered(WeekRange(now).value)
  {
    WeekRangeSpec(now);
  }

  lemma MonthValid(now: DateTime)
    requires now.Valid()
    ensures MonthRange(now).Ok? ==> WellOrdered(MonthRange(now).value)
  {
    MonthRangeSpec(now);
    var r := MonthRange(now);
    if r.Ok? {
      assert Seconds(r.value.end) > Seconds(r.value.start);
    }
  }

  /**
   * The three keyword windows hold `now`: they start no later than it, and
   * they end no earlier than `now` with its microseconds dropped.
   */
  lemma KeywordRangeContainsNow(rangeType: string, now: DateTime, parse: string -> Option<Date>)
    requires now.Valid()
    requires rangeType == "today" || rangeType == "this_week" || rangeType == "this_month"
    ensures var r := ResolveRange(rangeType, now, parse);
      r.Ok? ==> Micros(r.value.start) <= Micros(now) && Seconds(now) <= Seconds(r.value.end)
  {
    if rangeType == "today" {
      DayRangeSpec(now.year, now.month, now.day);
    } else if rangeType == "this_week" {
      WeekRangeSpec(now);
    } else {
      MonthRangeSpec(now);
      if now.month < 12 {
        DaysBeforeMonthGrows(now.year, now.month, 12);
      }
    }
  }

  /**
   * Dropping the microseconds matters: during the last second of the window,
   * `utcnow()` lies after `end`, since `end` has no fraction of a second.
   */
  lemma LastSecondEscapes(now: DateTime, parse: string -> Option<Date>)
    requires now.Valid() && now.hour == 23 && now.minute == 59 && now.second == 59 && now.microsecond > 0
    requires !(now.year == MaxYear && now.month == 12 && now.day == 31)
    ensures var r := ResolveRange("today", now, parse);
      r.Ok? && Micros(now) > Micros(r.value.end)
  {
    DayRangeSpec(now.year, now.month, now.day);
  }

  /** In the leap year 2024 the February window ends on the 29th. */
  lemma LeapFebruaryExample()
    ensures MonthRange(DateTime(2024, 2, 10, 9, 30, 0, 0))
            == Ok(TimeRange(DateTime(2024, 2, 1, 0, 0, 0, 0), DateTime(2024, 2, 29, 23, 59, 59, 0)))
  {
    MonthRangeSpec(DateTime(2024, 2, 10, 9, 30, 0, 0));
  }

  /** In 2023 the February window ends on the 28th. */
  lemma CommonFebruaryExample()
    ensures MonthRange(DateTime(2023, 2, 10, 9, 30, 0, 0))
            == Ok(TimeRange(DateTime(2023, 2, 1, 0, 0, 0, 0), DateTime(2023, 2, 28, 23, 59, 59, 0)))
  {
    MonthRangeSpec(DateTime(2023, 2, 10, 9, 30, 0, 0));
  }

  /** The December window ends on the 31st of the same year, not in January. */
  lemma DecemberExample()
    ensures MonthRange(DateTime(2024, 12, 15, 9, 30, 0, 0))
            == Ok(TimeRange(DateTime(2024, 12, 1, 0, 0, 0, 0), DateTime(2024, 12, 31, 23, 59, 59, 0)))
  {
    MonthRangeSpec(DateTime(2024, 12, 15, 9, 30, 0, 0));
  }
}

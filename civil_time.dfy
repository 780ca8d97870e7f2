/**
 * Naive civil date-times as Python's `datetime` treats them: the proleptic
 * Gregorian calendar, years 1 to 9999, and arithmetic with `timedelta` done on
 * day ordinals (day 1 is 0001-01-01). Adding a `timedelta` whose result falls
 * outside that range raises `OverflowError`; building a `datetime` from an
 * invalid year, month or day raises `ValueError`.
 */
module CivilTime {
  import opened Wrappers

  const MinYear: int := 1
  const MaxYear: int := 9999
  /** The ordinal of 9999-12-31, the last day a `datetime` can hold. */
  const MaxOrdinal: int := 3652059
  /** Seconds from 0001-01-01T00:00:00 to just past 9999-12-31T23:59:59: `MaxOrdinal` days of 86400 seconds. */
  const MaxSeconds: int := 315537897600

  /** The two exceptions `datetime` arithmetic raises. */
  datatype DateError = ValueError | OverflowError

  datatype Date = Date(year: int, month: int, day: int)

  datatype DateTime = DateTime(year: int, month: int, day: int,
                               hour: int, minute: int, second: int, microsecond: int)
  {
    /** The fields a `datetime` object can hold. */
    predicate Valid() {
      && MinYear <= year <= MaxYear
      && 1 <= month <= 12
      && 1 <= day <= DaysInMonth(year, month)
      && 0 <= hour < 24 && 0 <= minute < 60 && 0 <= second < 60
      && 0 <= microsecond < 1000000
    }

    predicate IsMidnight() {
      hour == 0 && minute == 0 && second == 0 && microsecond == 0
    }
  }

  predicate IsLeapYear(year: int) {
    year % 4 == 0 && (year % 100 != 0 || year % 400 == 0)
  }

  function DaysInYear(year: int): int {
    if IsLeapYear(year) then 366 else 365
  }

  function DaysInMonth(year: int, month: int): int
    requires 1 <= month <= 12
  {
    if month == 2 then (if IsLeapYear(year) then 29 else 28)
    else if month == 4 || month == 6 || month == 9 || month == 11 then 30
    else 31
  }

  /** Days in the months of `year` before `month`. */
  function DaysBeforeMonth(year: int, month: int): int
    requires 1 <= month <= 12
  {
    [0, 31, 59, 90, 120, 151, 181, 212, 243, 273, 304, 334][month - 1]
      + (if month > 2 && IsLeapYear(year) then 1 else 0)
  }

  /** Days in the years before `year`, counted from year 1. */
  function DaysBeforeYear(year: int): (days: int)
    requires year >= 1
    ensures 365 * (year - 1) <= days <= 366 * (year - 1)
  {
    if year == 1 then 0 else DaysBeforeYear(year - 1) + DaysInYear(year - 1)
  }

  /** The ordinal of a date: 1 for 0001-01-01, counting every day after it. */
  function Ordinal(year: int, month: int, day: int): int
    requires year >= 1 && 1 <= month <= 12
  {
    DaysBeforeYear(year) + DaysBeforeMonth(year, month) + day
  }

  lemma DaysBeforeNextMonth(year: int, month: int)
    requires 1 <= month < 12
    ensures DaysBeforeMonth(year, month + 1) == DaysBeforeMonth(year, month) + DaysInMonth(year, month)
  {
  }

  lemma MonthsFillYear(year: int)
    ensures DaysBeforeMonth(year, 12) + DaysInMonth(year, 12) == DaysInYear(year)
  {
  }

  /** Going from `year - 1` to `year` crosses a multiple of `n` exactly when `year` is one. */
  lemma DivStep(year: int, n: int)
    requires year >= 1 && (n == 4 || n == 100 || n == 400)
    ensures year / n == (year - 1) / n + (if year % n == 0 then 1 else 0)
  {
    if n == 4 {
      var q, r := (year - 1) / 4, (year - 1) % 4;
      if r == 3 {
        assert year == 4 * (q + 1);
      } else {
        assert year == 4 * q + (r + 1);
      }
    } else if n == 100 {
      var q, r := (year - 1) / 100, (year - 1) % 100;
      if r == 99 {
        assert year == 100 * (q + 1);
      } else {
        assert year == 100 * q + (r + 1);
      }
    } else {
      var q, r := (year - 1) / 400, (year - 1) % 400;
      if r == 399 {
        assert year == 400 * (q + 1);
      } else {
        assert year == 400 * q + (r + 1);
      }
    }
  }

  /** A multiple of 400 is one of 100, and a multiple of 100 is one of 4. */
  lemma MultipleChain(year: int)
    ensures year % 400 == 0 ==> year % 100 == 0
    ensures year % 100 == 0 ==> year % 4 == 0
  {
    if year % 400 == 0 {
      MultipleOf(year, 100, 4 * (year / 400));
    }
    if year % 100 == 0 {
      MultipleOf(year, 4, 25 * (year / 100));
    }
  }

  lemma MultipleOf(year: int, n: int, q: int)
    requires n == 4 || n == 100
    requires year == n * q
    ensures year % n == 0
  {
    if n == 4 {
      assert year == 4 * q;
      assert year / 4 == q;
    } else {
      assert year == 100 * q;
      assert year / 100 == q;
    }
  }

  lemma DaysBeforeNextYear(year: int)
    requires year >= 1
    ensures DaysBeforeYear(year + 1) == DaysBeforeYear(year) + DaysInYear(year)
  {
  }

  /** Days in the first `k` years: the closed form Python's `_days_before_year` uses. */
  function YearsClosedForm(k: int): int {
    365 * k + k / 4 - k / 100 + k / 400
  }

  lemma ClosedFormStep(year: int)
    requires year >= 1
    ensures YearsClosedForm(year) == YearsClosedForm(year - 1) + DaysInYear(year)
  {
    DivStep(year, 4);
    DivStep(year, 100);
    DivStep(year, 400);
    MultipleChain(year);
    var leap := (if year % 4 == 0 then 1 else 0) - (if year % 100 == 0 then 1 else 0)
                + (if year % 400 == 0 then 1 else 0);
    assert YearsClosedForm(year) == YearsClosedForm(year - 1) + 365 + leap;
  }

  lemma {:induction false} DaysBeforeYearClosedForm(year: int)
    requires year >= 1
    ensures DaysBeforeYear(year) == YearsClosedForm(year - 1)
  {
    if year > 1 {
      DaysBeforeYearClosedForm(year - 1);
      ClosedFormStep(year - 1);
    }
  }

  lemma DaysBeforeMaxYear()
    ensures DaysBeforeYear(MaxYear) == 3651694
  {
    DaysBeforeYearClosedForm(MaxYear);
  }

  /** Every later year starts at least a whole year of days later. */
  lemma {:induction false} DaysBeforeYearGrows(a: int, b: int)
    requires 1 <= a < b
    ensures DaysBeforeYear(a) + DaysInYear(a) <= DaysBeforeYear(b)
    decreases b - a
  {
    DaysBeforeNextYear(a);
    if a + 1 < b {
      DaysBeforeYearGrows(a + 1, b);
    }
  }

  lemma {:induction false} DaysBeforeMonthGrows(year: int, a: int, b: int)
    requires 1 <= a < b <= 12
    ensures DaysBeforeMonth(year, a) + DaysInMonth(year, a) <= DaysBeforeMonth(year, b)
    decreases b - a
  {
    DaysBeforeNextMonth(year, a);
    if a + 1 < b {
      DaysBeforeMonthGrows(year, a + 1, b);
    }
  }

  /**
   * The year holding the `n`-th day counted from the start of `year`, and the
   * day's number within that year.
   */
  function YearOf(n: int, year: int): (r: (int, int))
    requires year >= 1 && n >= 1
    ensures r.0 >= year && 1 <= r.1 <= DaysInYear(r.0)
    ensures DaysBeforeYear(r.0) + r.1 == DaysBeforeYear(year) + n
    decreases n
  {
    if n <= DaysInYear(year) then (year, n)
    else
      DaysBeforeNextYear(year);
      YearOf(n - DaysInYear(year), year + 1)
  }

  /** The month of `year`, at or before `month`, holding day `dayOfYear` of the year. */
  function MonthOf(year: int, dayOfYear: int, month: int): (m: int)
    requires 1 <= month <= 12
    requires 1 <= dayOfYear <= DaysBeforeMonth(year, month) + DaysInMonth(year, month)
    ensures 1 <= m <= month
    ensures DaysBeforeMonth(year, m) < dayOfYear <= DaysBeforeMonth(year, m) + DaysInMonth(year, m)
    decreases month
  {
    if month == 1 || dayOfYear > DaysBeforeMonth(year, month) then month
    else
      DaysBeforeNextMonth(year, month - 1);
      MonthOf(year, dayOfYear, month - 1)
  }

  /** The date of an ordinal: the inverse of `Ordinal` (Python's `date.fromordinal`). */
  function FromOrdinal(n: int): (d: Date)
    requires n >= 1
    ensures d.year >= 1 && 1 <= d.month <= 12 && 1 <= d.day <= DaysInMonth(d.year, d.month)
    ensures Ordinal(d.year, d.month, d.day) == n
  {
    var (year, dayOfYear) := YearOf(n, 1);
    MonthsFillYear(year);
    var month := MonthOf(year, dayOfYear, 12);
    Date(year, month, dayOfYear - DaysBeforeMonth(year, month))
  }

  /** Two well-formed dates with the same ordinal are the same date. */
  lemma OrdinalInjective(a: Date, b: Date)
    requires a.year >= 1 && 1 <= a.month <= 12 && 1 <= a.day <= DaysInMonth(a.year, a.month)
    requires b.year >= 1 && 1 <= b.month <= 12 && 1 <= b.day <= DaysInMonth(b.year, b.month)
    requires Ordinal(a.year, a.month, a.day) == Ordinal(b.year, b.month, b.day)
    ensures a == b
  {
    DayOfYearBounds(a.year, a.month, a.day);
    DayOfYearBounds(b.year, b.month, b.day);
    SameYear(a.year, DaysBeforeMonth(a.year, a.month) + a.day, b.year, DaysBeforeMonth(b.year, b.month) + b.day);
    SameMonth(a.year, a.month, a.day, b.month, b.day);
  }

  /** The day of the year of a well-formed date lies between 1 and the length of its year. */
  lemma DayOfYearBounds(year: int, month: int, day: int)
    requires 1 <= month <= 12 && 1 <= day <= DaysInMonth(year, month)
    ensures 1 <= DaysBeforeMonth(year, month) + day <= DaysInYear(year)
  {
    MonthsFillYear(year);
    if month < 12 {
      DaysBeforeMonthGrows(year, month, 12);
    }
  }

  /** Equal ordinals put two days of the year in the same year. */
  lemma SameYear(ya: int, da: int, yb: int, db: int)
    requires ya >= 1 && yb >= 1
    requires 1 <= da <= DaysInYear(ya) && 1 <= db <= DaysInYear(yb)
    requires DaysBeforeYear(ya) + da == DaysBeforeYear(yb) + db
    ensures ya == yb
  {
    if ya < yb {
      DaysBeforeYearGrows(ya, yb);
    } else if yb < ya {
      DaysBeforeYearGrows(yb, ya);
    }
  }

  /** Within one year, equal days of the year mean the same month and day. */
  lemma SameMonth(year: int, ma: int, da: int, mb: int, db: int)
    requires 1 <= ma <= 12 && 1 <= da <= DaysInMonth(year, ma)
    requires 1 <= mb <= 12 && 1 <= db <= DaysInMonth(year, mb)
    requires DaysBeforeMonth(year, ma) + da == DaysBeforeMonth(year, mb) + db
    ensures ma == mb && da == db
  {
    if ma < mb {
      DaysBeforeMonthGrows(year, ma, mb);
    } else if mb < ma {
      DaysBeforeMonthGrows(year, mb, ma);
    }
  }

  lemma FromOrdinalOfOrdinal(d: Date)
    requires d.year >= 1 && 1 <= d.month <= 12 && 1 <= d.day <= DaysInMonth(d.year, d.month)
    ensures FromOrdinal(Ordinal(d.year, d.month, d.day)) == d
  {
    var e := FromOrdinal(Ordinal(d.year, d.month, d.day));
    OrdinalInjective(d, e);
  }

  /** The last valid day is 9999-12-31, and it is the only date with ordinal `MaxOrdinal`. */
  lemma OrdinalBounds(t: DateTime)
    requires t.Valid()
    ensures 1 <= Ordinal(t.year, t.month, t.day) <= MaxOrdinal
    ensures Ordinal(t.year, t.month, t.day) == MaxOrdinal <==> t.year == MaxYear && t.month == 12 && t.day == 31
  {
    DayOfYearBounds(t.year, t.month, t.day);
    DaysBeforeMaxYear();
    if t.year < MaxYear {
      DaysBeforeYearGrows(t.year, MaxYear);
    }
    LastDay(t.year, t.month, t.day);
  }

  /** Only 9999-12-31 has ordinal `MaxOrdinal` among the dates of the year 9999 and before. */
  lemma LastDay(year: int, month: int, day: int)
    requires 1 <= year <= MaxYear && 1 <= month <= 12 && 1 <= day <= DaysInMonth(year, month)
    ensures Ordinal(year, month, day) == MaxOrdinal <==> year == MaxYear && month == 12 && day == 31
  {
    DaysBeforeMaxYear();
    assert Ordinal(MaxYear, 12, 31) == MaxOrdinal;
    if Ordinal(year, month, day) == MaxOrdinal {
      OrdinalInjective(Date(year, month, day), Date(MaxYear, 12, 31));
    }
  }

  /** Dates with ordinals up to `MaxOrdinal` lie in years a `datetime` can hold. */
  lemma YearWithinRange(d: Date)
    requires d.year >= 1 && 1 <= d.month <= 12 && 1 <= d.day
    requires Ordinal(d.year, d.month, d.day) <= MaxOrdinal
    ensures d.year <= MaxYear
  {
    DaysBeforeMaxYear();
    if d.year > MaxYear {
      DaysBeforeYearGrows(MaxYear, d.year);
    }
  }

  /** Python's `datetime(year, month, day)`: midnight of that day, or `ValueError`. */
  function NewDateTime(year: int, month: int, day: int): (r: Result<DateTime, DateError>)
    ensures r.Ok? <==> MinYear <= year <= MaxYear && 1 <= month <= 12 && 1 <= day <= DaysInMonth(year, month)
    ensures r.Ok? ==> (r.value.Valid() && r.value.IsMidnight()
                       && r.value.year == year && r.value.month == month && r.value.day == day)
    ensures r.Err? ==> r.error == ValueError
  {
    if MinYear <= year <= MaxYear && 1 <= month <= 12 && 1 <= day <= DaysInMonth(year, month) then
      Ok(DateTime(year, month, day, 0, 0, 0, 0))
    else
      Err(ValueError)
  }

  /** Whole seconds from 0001-01-01T00:00:00 to `t`, ignoring its microseconds. */
  function Seconds(t: DateTime): int
    requires t.Valid()
  {
    (Ordinal(t.year, t.month, t.day) - 1) * 86400 + t.hour * 3600 + t.minute * 60 + t.second
  }

  /** Microseconds from 0001-01-01T00:00:00 to `t`: the order `datetime` comparison uses. */
  function Micros(t: DateTime): int
    requires t.Valid()
  {
    Seconds(t) * 1000000 + t.microsecond
  }

  lemma SecondsBounds(t: DateTime)
    requires t.Valid()
    ensures 0 <= Seconds(t) < MaxSeconds
    ensures Seconds(t) / 86400 == Ordinal(t.year, t.month, t.day) - 1
    ensures Seconds(t) % 86400 == t.hour * 3600 + t.minute * 60 + t.second
  {
    OrdinalBounds(t);
  }

  /** Reading a date-time's day and time of day off its seconds. */
  lemma SecondsSplit(t: DateTime, days: int, rest: int)
    requires t.Valid() && 0 <= rest < 86400 && Seconds(t) == days * 86400 + rest
    ensures Ordinal(t.year, t.month, t.day) == days + 1
    ensures t.hour * 3600 + t.minute * 60 + t.second == rest
    ensures rest == 0 ==> t.hour == 0 && t.minute == 0 && t.second == 0
    ensures rest == 86399 ==> t.hour == 23 && t.minute == 59 && t.second == 59
  {
    SecondsBounds(t);
  }

  /** The date-time `s` seconds (and `micro` microseconds) after 0001-01-01T00:00:00. */
  function FromSeconds(s: int, micro: int): (t: DateTime)
    requires 0 <= s < MaxSeconds && 0 <= micro < 1000000
    ensures t.Valid() && Seconds(t) == s && t.microsecond == micro
  {
    var d := FromOrdinal(s / 86400 + 1);
    YearWithinRange(d);
    var r := s % 86400;
    DateTime(d.year, d.month, d.day, r / 3600, r % 3600 / 60, r % 60, micro)
  }

  lemma SecondsDetermine()
    ensures forall a: DateTime, b: DateTime {:trigger Seconds(a), Seconds(b)} ::
      a.Valid() && b.Valid() && Seconds(a) == Seconds(b) && a.microsecond == b.microsecond ==> a == b
  {
    forall a: DateTime, b: DateTime | a.Valid() && b.Valid() && Seconds(a) == Seconds(b) && a.microsecond == b.microsecond
      ensures a == b
    {
      SecondsInjective(a, b);
    }
  }

  /** A valid date-time is determined by its seconds and microseconds. */
  lemma SecondsInjective(a: DateTime, b: DateTime)
    requires a.Valid() && b.Valid()
    requires Seconds(a) == Seconds(b) && a.microsecond == b.microsecond
    ensures a == b
  {
    SecondsBounds(a);
    SecondsBounds(b);
    OrdinalInjective(Date(a.year, a.month, a.day), Date(b.year, b.month, b.day));
  }

  /**
   * `t + timedelta(seconds=k)`: the date-time `k` seconds later (earlier for a
   * negative `k`), keeping the microseconds, or `OverflowError` when it would
   * leave the years 1 to 9999.
   */
  function AddSeconds(t: DateTime, k: int): (r: Result<DateTime, DateError>)
    requires t.Valid()
    ensures r.Ok? <==> 0 <= Seconds(t) + k < MaxSeconds
    ensures r.Ok? ==> (r.value.Valid() && Seconds(r.value) == Seconds(t) + k
                       && r.value.microsecond == t.microsecond)
    ensures r.Err? ==> r.error == OverflowError
  {
    var s := Seconds(t) + k;
    if 0 <= s < MaxSeconds then
      var candidate := FromSeconds(s, t.microsecond);
      SecondsDetermine();
      var r: DateTime :| r.Valid() && Seconds(r) == s && r.microsecond == t.microsecond;
      Ok(r)
    else Err(OverflowError)
  }

  /** `t.weekday()`: 0 for Monday up to 6 for Sunday. */
  function Weekday(t: DateTime): (w: int)
    requires t.Valid()
  {
    (Ordinal(t.year, t.month, t.day) + 6) % 7
  }

  /** Python's `datetime(t.year, t.month, t.day)` for a valid `t`, which cannot raise. */
  function Midnight(t: DateTime): (m: DateTime)
    requires t.Valid()
    ensures NewDateTime(t.year, t.month, t.day) == Ok(m)
  {
    DateTime(t.year, t.month, t.day, 0, 0, 0, 0)
  }
}

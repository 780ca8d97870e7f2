/**
 * How a range bound is sent to the calendar service: `t.isoformat() + 'Z'`.
 * Python's `isoformat` writes `YYYY-MM-DDTHH:MM:SS`, zero-padded, followed by
 * `.ffffff` only when the microseconds are not zero. `ParseRendered` reads the
 * text back, so the rendering is shown to lose nothing.
 */
module IsoFormat {
  import opened Wrappers
  import opened CivilTime

  predicate IsDigit(c: char) {
    '0' <= c <= '9'
  }

  predicate AllDigits(s: string) {
    forall i :: 0 <= i < |s| ==> IsDigit(s[i])
  }

  function Pow10(width: nat): (p: nat)
    ensures p >= 1
  {
    if width == 0 then 1 else 10 * Pow10(width - 1)
  }

  function DigitChar(n: int): (c: char)
    requires 0 <= n < 10
    ensures IsDigit(c) && c as int - '0' as int == n
  {
    ('0' as int + n) as char
  }

  /** `n` written in decimal with exactly `width` digits, zero-padded on the left (`%0<width>d`). */
  function Padded(n: int, width: nat): (s: string)
    requires 0 <= n < Pow10(width)
    ensures |s| == width && AllDigits(s)
  {
    if width == 0 then []
    else Padded(n / 10, width - 1) + [DigitChar(n % 10)]
  }

  /** The number a string of decimal digits denotes. */
  function DigitsValue(s: string): nat
    requires AllDigits(s)
  {
    if s == [] then 0
    else DigitsValue(s[..|s| - 1]) * 10 + (s[|s| - 1] as int - '0' as int)
  }

  lemma {:induction false} PaddedRoundTrip(n: int, width: nat)
    requires 0 <= n < Pow10(width)
    ensures DigitsValue(Padded(n, width)) == n
  {
    if width > 0 {
      var s := Padded(n, width);
      PaddedRoundTrip(n / 10, width - 1);
      assert s[..|s| - 1] == Padded(n / 10, width - 1);
    }
  }

  /** `YYYY-MM-DD`, the date half of `isoformat`. */
  function DatePart(t: DateTime): (s: string)
    requires t.Valid()
    ensures |s| == 10 && s[4] == '-' && s[7] == '-'
    ensures s[0..4] == Padded(t.year, 4) && s[5..7] == Padded(t.month, 2) && s[8..10] == Padded(t.day, 2)
  {
    Padded(t.year, 4) + "-" + Padded(t.month, 2) + "-" + Padded(t.day, 2)
  }

  /** `HH:MM:SS`, the time half of `isoformat` before any fraction of a second. */
  function TimePart(t: DateTime): (s: string)
    requires t.Valid()
    ensures |s| == 8 && s[2] == ':' && s[5] == ':'
    ensures s[0..2] == Padded(t.hour, 2) && s[3..5] == Padded(t.minute, 2) && s[6..8] == Padded(t.second, 2)
  {
    Padded(t.hour, 2) + ":" + Padded(t.minute, 2) + ":" + Padded(t.second, 2)
  }

  /** `.ffffff` when there are microseconds, nothing otherwise. */
  function FractionPart(t: DateTime): (s: string)
    requires t.Valid()
    ensures |s| == (if t.microsecond == 0 then 0 else 7)
    ensures t.microsecond != 0 ==> s[0] == '.' && s[1..7] == Padded(t.microsecond, 6)
  {
    if t.microsecond != 0 then "." + Padded(t.microsecond, 6) else ""
  }

  /** Python's `t.isoformat()` for a naive `datetime`. */
  function Isoformat(t: DateTime): (s: string)
    requires t.Valid()
    ensures |s| == (if t.microsecond == 0 then 19 else 26)
    ensures s[0..10] == DatePart(t) && s[10] == 'T' && s[11..19] == TimePart(t)
  {
    DatePart(t) + "T" + TimePart(t) + FractionPart(t)
  }

  /** `t.isoformat() + 'Z'`: the bound as sent in `timeMin` and `timeMax`. */
  function Render(t: DateTime): (s: string)
    requires t.Valid()
    ensures |s| == (if t.microsecond == 0 then 20 else 27)
    ensures s[0..10] == DatePart(t) && s[10] == 'T' && s[11..19] == TimePart(t)
    ensures t.microsecond != 0 ==> s[19..26] == FractionPart(t)
    ensures s[|s| - 1] == 'Z'
  {
    Isoformat(t) + "Z"
  }

  /** The rendering has the shape `YYYY-MM-DDTHH:MM:SS[.ffffff]Z`, every field in decimal digits. */
  lemma RenderShape(t: DateTime)
    requires t.Valid()
    ensures var s := Render(t);
      && s[4] == '-' && s[7] == '-' && s[10] == 'T' && s[13] == ':' && s[16] == ':' && s[|s| - 1] == 'Z'
      && AllDigits(s[0..4]) && AllDigits(s[5..7]) && AllDigits(s[8..10])
      && AllDigits(s[11..13]) && AllDigits(s[14..16]) && AllDigits(s[17..19])
      && (t.microsecond != 0 ==> s[19] == '.' && AllDigits(s[20..26]))
  {
    RenderedDate(t);
    RenderedTime(t);
  }

  lemma RenderedDate(t: DateTime)
    requires t.Valid()
    ensures var s := Render(t);
      && s[4] == '-' && s[7] == '-'
      && s[0..4] == Padded(t.year, 4) && s[5..7] == Padded(t.month, 2) && s[8..10] == Padded(t.day, 2)
  {
    var s := Render(t);
    var date := DatePart(t);
    assert s[0..4] == date[0..4] && s[5..7] == date[5..7] && s[8..10] == date[8..10];
    assert s[4] == date[4] && s[7] == date[7];
  }

  lemma RenderedTime(t: DateTime)
    requires t.Valid()
    ensures var s := Render(t);
      && s[13] == ':' && s[16] == ':'
      && s[11..13] == Padded(t.hour, 2) && s[14..16] == Padded(t.minute, 2) && s[17..19] == Padded(t.second, 2)
      && (t.microsecond != 0 ==> s[19] == '.' && s[20..26] == Padded(t.microsecond, 6))
  {
    var s := Render(t);
    var time := TimePart(t);
    assert s[11..13] == time[0..2] && s[14..16] == time[3..5] && s[17..19] == time[6..8];
    assert s[13] == time[2] && s[16] == time[5];
    if t.microsecond != 0 {
      var fraction := FractionPart(t);
      assert s[19] == fraction[0] && s[20..26] == fraction[1..7];
    }
  }

  /** Reads back `YYYY-MM-DDTHH:MM:SS[.ffffff]Z`, accepting only what names a valid `datetime`. */
  function ParseRendered(s: string): (r: Option<DateTime>)
    ensures r.Some? ==> r.value.Valid()
  {
    if !(|s| == 20 || (|s| == 27 && s[19] == '.' && AllDigits(s[20..26]))) then None
    else if !(s[4] == '-' && s[7] == '-' && s[10] == 'T' && s[13] == ':' && s[16] == ':' && s[|s| - 1] == 'Z')
    then None
    else if !(AllDigits(s[0..4]) && AllDigits(s[5..7]) && AllDigits(s[8..10])
              && AllDigits(s[11..13]) && AllDigits(s[14..16]) && AllDigits(s[17..19]))
    then None
    else
      var micro := if |s| == 27 then DigitsValue(s[20..26]) else 0;
      var t := DateTime(DigitsValue(s[0..4]), DigitsValue(s[5..7]), DigitsValue(s[8..10]),
                        DigitsValue(s[11..13]), DigitsValue(s[14..16]), DigitsValue(s[17..19]), micro);
      if t.Valid() && (|s| == 27 <==> micro != 0) then Some(t) else None
  }

  /** The rendering is one-to-one: parsing it gives back the date-time. */
  lemma RenderRoundTrip(t: DateTime)
    requires t.Valid()
    ensures ParseRendered(Render(t)) == Some(t)
  {
    RenderShape(t);
    RenderedFields(t);
  }

  /** Each field of the rendering reads back as the field it was written from. */
  lemma RenderedFields(t: DateTime)
    requires t.Valid()
    ensures var s := Render(t);
      && AllDigits(s[0..4]) && AllDigits(s[5..7]) && AllDigits(s[8..10])
      && AllDigits(s[11..13]) && AllDigits(s[14..16]) && AllDigits(s[17..19])
      && DigitsValue(s[0..4]) == t.year && DigitsValue(s[5..7]) == t.month
      && DigitsValue(s[8..10]) == t.day && DigitsValue(s[11..13]) == t.hour
      && DigitsValue(s[14..16]) == t.minute && DigitsValue(s[17..19]) == t.second
      && (t.microsecond != 0 ==> AllDigits(s[20..26]) && DigitsValue(s[20..26]) == t.microsecond)
  {
    RenderedDateFields(t);
    RenderedTimeFields(t);
  }

  lemma RenderedDateFields(t: DateTime)
    requires t.Valid()
    ensures var s := Render(t);
      && AllDigits(s[0..4]) && AllDigits(s[5..7]) && AllDigits(s[8..10])
      && DigitsValue(s[0..4]) == t.year && DigitsValue(s[5..7]) == t.month && DigitsValue(s[8..10]) == t.day
  {
    RenderedDate(t);
    PaddedRoundTrip(t.year, 4);
    PaddedRoundTrip(t.month, 2);
    PaddedRoundTrip(t.day, 2);
  }

  lemma RenderedTimeFields(t: DateTime)
    requires t.Valid()
    ensures var s := Render(t);
      && AllDigits(s[11..13]) && AllDigits(s[14..16]) && AllDigits(s[17..19])
      && DigitsValue(s[11..13]) == t.hour && DigitsValue(s[14..16]) == t.minute
      && DigitsValue(s[17..19]) == t.second
      && (t.microsecond != 0 ==> AllDigits(s[20..26]) && DigitsValue(s[20..26]) == t.microsecond)
  {
    RenderedTime(t);
    PaddedRoundTrip(t.hour, 2);
    PaddedRoundTrip(t.minute, 2);
    PaddedRoundTrip(t.second, 2);
    if t.microsecond != 0 {
      PaddedRoundTrip(t.microsecond, 6);
    }
  }
}

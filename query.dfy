/**
 * `interpret_natural_query`: free text typed by a user becomes the range type
 * `get_date_range` understands. The text is lower-cased and stripped, then
 * tested for "today", "week" and "month" in that order; failing those, the
 * first `YYYY-MM-DD` in it is the answer, and `"this_month"` is the default.
 *
 * The source calls `re.search` without importing `re`, so the date branch
 * raises `NameError`. `InterpretAsWritten` is that behaviour;
 * `InterpretNaturalQuery` is the function with the import in place.
 */
module NaturalQuery {
  import opened Wrappers
  import opened IsoFormat
  import opened Substrings

  /** Python's `str.isspace()`: the characters `str.strip()` removes. */
  predicate IsSpace(c: char) {
    || ('\t' <= c <= '\r') || ('\U{1C}' <= c <= ' ')
    || c == '\U{85}' || c == '\U{A0}' || c == '\U{1680}'
    || ('\U{2000}' <= c <= '\U{200A}') || c == '\U{2028}' || c == '\U{2029}'
    || c == '\U{202F}' || c == '\U{205F}' || c == '\U{3000}'
  }

  predicate IsUpper(c: char) {
    'A' <= c <= 'Z'
  }

  function LowerChar(c: char): (l: char)
    ensures !IsUpper(l)
    ensures IsUpper(c) ==> l as int == c as int + 32
    ensures !IsUpper(c) ==> l == c
  {
    if IsUpper(c) then (c as int + 32) as char else c
  }

  /** `s.lower()` on the letters `A` to `Z`. */
  function Lower(s: string): (r: string)
    ensures |r| == |s|
    ensures forall i :: 0 <= i < |s| ==> r[i] == LowerChar(s[i])
  {
    if s == [] then [] else [LowerChar(s[0])] + Lower(s[1..])
  }

  /** How many characters `str.lstrip()` removes. */
  function LeadingSpaces(s: string): (n: nat)
    ensures n <= |s|
    ensures forall i :: 0 <= i < n ==> IsSpace(s[i])
    ensures n < |s| ==> !IsSpace(s[n])
  {
    if s == [] || !IsSpace(s[0]) then 0 else 1 + LeadingSpaces(s[1..])
  }

  /** How many characters `str.rstrip()` removes. */
  function TrailingSpaces(s: string): (n: nat)
    ensures n <= |s|
    ensures forall i :: |s| - n <= i < |s| ==> IsSpace(s[i])
    ensures n < |s| ==> !IsSpace(s[|s| - n - 1])
  {
    if s == [] || !IsSpace(s[|s| - 1]) then 0 else 1 + TrailingSpaces(s[..|s| - 1])
  }

  /**
   * `s.strip()`: the longest run of `s` that neither starts nor ends with
   * whitespace, with only whitespace cut on either side.
   */
  function Strip(s: string): (r: string)
    ensures var lead := LeadingSpaces(s);
      && lead + |r| <= |s| && r == s[lead..lead + |r|]
      && (forall i :: lead + |r| <= i < |s| ==> IsSpace(s[i]))
    ensures r == [] || (!IsSpace(r[0]) && !IsSpace(r[|r| - 1]))
  {
    var rest := s[LeadingSpaces(s)..];
    rest[..|rest| - TrailingSpaces(rest)]
  }

  /** Stripping a text free of `A` to `Z` leaves it free of them. */
  lemma StripKeepsLowerCase(s: string)
    requires forall i :: 0 <= i < |s| ==> !IsUpper(s[i])
    ensures var r := Strip(s); forall i :: 0 <= i < |r| ==> !IsUpper(r[i])
  {
    var r := Strip(s);
    var lead := LeadingSpaces(s);
    forall i | 0 <= i < |r|
      ensures !IsUpper(r[i])
    {
      assert r[i] == s[lead + i];
    }
  }

  /**
   * `query_text.lower().strip()`: no longer than the query, free of `A` to
   * `Z`, and neither starting nor ending with whitespace.
   */
  function Normalize(query: string): (r: string)
    ensures |r| <= |query|
    ensures forall i :: 0 <= i < |r| ==> !IsUpper(r[i])
    ensures r == [] || (!IsSpace(r[0]) && !IsSpace(r[|r| - 1]))
  {
    var lower := Lower(query);
    StripKeepsLowerCase(lower);
    Strip(lower)
  }

  /** Ten characters matching `\d{4}-\d{2}-\d{2}`. */
  predicate DateShaped(s: string) {
    && |s| == 10
    && IsDigit(s[0]) && IsDigit(s[1]) && IsDigit(s[2]) && IsDigit(s[3]) && s[4] == '-'
    && IsDigit(s[5]) && IsDigit(s[6]) && s[7] == '-' && IsDigit(s[8]) && IsDigit(s[9])
  }

  /** The pattern matches `text` at position `i`. */
  predicate DateAt(text: string, i: int) {
    0 <= i && i + 10 <= |text| && DateShaped(text[i..i + 10])
  }

  /** Where `re.search` finds the pattern at or after position `from`: the leftmost such position. */
  function SearchFrom(text: string, from: nat): (r: Option<nat>)
    ensures r.Some? ==> from <= r.value && DateAt(text, r.value)
    ensures r.Some? ==> forall j :: from <= j < r.value ==> !DateAt(text, j)
    ensures r.None? ==> forall j :: from <= j ==> !DateAt(text, j)
    decreases |text| - from
  {
    if from + 10 > |text| then None
    else if DateShaped(text[from..from + 10]) then Some(from)
    else SearchFrom(text, from + 1)
  }

  /** `re.search(r'\d{4}-\d{2}-\d{2}', text)`, giving `match.group()` when it matches. */
  function SearchDate(text: string): (r: Option<string>)
    ensures r.None? <==> forall i :: !DateAt(text, i)
    ensures r.Some? ==>
      exists i :: DateAt(text, i) && r.value == text[i..i + 10] && forall j :: 0 <= j < i ==> !DateAt(text, j)
  {
    match SearchFrom(text, 0)
    case None => None
    case Some(i) => Some(text[i..i + 10])
  }

  /** The branches of `interpret_natural_query` with `re` imported, on the lower-cased, stripped text. */
  function Classify(text: string): string {
    if Occurs("today", text) then "today"
    else if Occurs("week", text) then "this_week"
    else if Occurs("month", text) then "this_month"
    else
      match SearchDate(text)
      case Some(date) => date
      case None => "this_month"
  }

  /** `interpret_natural_query` with `re` imported. */
  function InterpretNaturalQuery(query: string): string {
    Classify(Normalize(query))
  }

  /** The one exception the function as written can raise. */
  datatype QueryError = NameError

  /**
   * The branches of `interpret_natural_query` as written: once no keyword
   * matches, the lookup of the unbound name `re` raises `NameError` before
   * anything is searched.
   */
  function ClassifyAsWritten(text: string): Result<string, QueryError> {
    if Occurs("today", text) then Ok("today")
    else if Occurs("week", text) then Ok("this_week")
    else if Occurs("month", text) then Ok("this_month")
    else Err(NameError)
  }

  /** `interpret_natural_query` as written. */
  function InterpretAsWritten(query: string): Result<string, QueryError> {
    ClassifyAsWritten(Normalize(query))
  }

  predicate HasKeyword(text: string) {
    Occurs("today", text) || Occurs("week", text) || Occurs("month", text)
  }

  // ---------------------------------------------------------------------------
  // What the classification promises.
  // ---------------------------------------------------------------------------

  /** "today" wins over "week" and "month", and "week" over "month". */
  lemma KeywordPriority(query: string)
    ensures var text := Normalize(query);
      var r := InterpretNaturalQuery(query);
      && (Occurs("today", text) ==> r == "today")
      && (!Occurs("today", text) && Occurs("week", text) ==> r == "this_week")
      && (!Occurs("today", text) && !Occurs("week", text) && Occurs("month", text) ==> r == "this_month")
  {
  }

  /**
   * Without a keyword the answer is the leftmost date in the lower-cased,
   * stripped query, or `"this_month"` when it holds none.
   */
  lemma DateFallback(query: string)
    requires !HasKeyword(Normalize(query))
    ensures var text := Normalize(query);
      forall i :: DateAt(text, i) && (forall j :: 0 <= j < i ==> !DateAt(text, j)) ==>
        InterpretNaturalQuery(query) == text[i..i + 10]
    ensures var text := Normalize(query);
      (forall i :: !DateAt(text, i)) ==> InterpretNaturalQuery(query) == "this_month"
  {
    var text := Normalize(query);
    LeftmostDate(text);
  }

  /** `Classify` without a keyword: the leftmost date, or `"this_month"`. */
  lemma LeftmostDate(text: string)
    requires !HasKeyword(text)
    ensures forall i :: DateAt(text, i) && (forall j :: 0 <= j < i ==> !DateAt(text, j)) ==>
      Classify(text) == text[i..i + 10]
    ensures (forall i :: !DateAt(text, i)) ==> Classify(text) == "this_month"
  {
    forall i | DateAt(text, i) && (forall j :: 0 <= j < i ==> !DateAt(text, j))
      ensures Classify(text) == text[i..i + 10]
    {
      LeftmostAt(text, i);
    }
  }

  /** The search stops at the first date in the text. */
  lemma LeftmostAt(text: string, i: int)
    requires !HasKeyword(text)
    requires DateAt(text, i) && forall j :: 0 <= j < i ==> !DateAt(text, j)
    ensures Classify(text) == text[i..i + 10]
  {
    var found := SearchFrom(text, 0);
    assert found.Some?;
    assert DateAt(text, found.value);
  }

  /**
   * The answer is one of the three keywords' range types, or a `YYYY-MM-DD`
   * that occurs in the lower-cased, stripped query, which then holds no keyword.
   */
  lemma ResultSet(query: string)
    ensures var r := InterpretNaturalQuery(query);
      || r == "today" || r == "this_week" || r == "this_month"
      || (DateShaped(r) && Occurs(r, Normalize(query)) && !HasKeyword(Normalize(query)))
  {
    ClassifyResultSet(Normalize(query));
  }

  /** `ResultSet` on the normalized text. */
  lemma ClassifyResultSet(text: string)
    ensures var r := Classify(text);
      || r == "today" || r == "this_week" || r == "this_month"
      || (DateShaped(r) && Occurs(r, text) && !HasKeyword(text))
  {
    if !HasKeyword(text) {
      var found := SearchFrom(text, 0);
      if found.Some? {
        var i := found.value;
        assert OccursAt(text[i..i + 10], text, i);
      }
    }
  }

  /** The function as written agrees with the intended one wherever it returns, and fails exactly without a keyword. */
  lemma AsWrittenAgrees(query: string)
    ensures InterpretAsWritten(query).Err? <==> !HasKeyword(Normalize(query))
    ensures InterpretAsWritten(query).Ok? ==> InterpretAsWritten(query).value == InterpretNaturalQuery(query)
  {
    ClassifyAsWrittenAgrees(Normalize(query));
  }

  /** `AsWrittenAgrees` on the normalized text. */
  lemma ClassifyAsWrittenAgrees(text: string)
    ensures ClassifyAsWritten(text).Err? <==> !HasKeyword(text)
    ensures ClassifyAsWritten(text).Ok? ==> ClassifyAsWritten(text).value == Classify(text)
  {
  }

  /** A query that is just a date: the intended answer is the date, but the function as written raises `NameError`. */
  lemma MissingImportExample()
    ensures InterpretNaturalQuery("2024-03-15") == "2024-03-15"
    ensures InterpretAsWritten("2024-03-15") == Err(NameError)
  {
    DateClassifiesAsItself("2024-03-15");
  }

  /** A bare date normalizes to itself, classifies as itself, and makes the function as written fail. */
  lemma DateClassifiesAsItself(q: string)
    requires DateShaped(q)
    ensures InterpretNaturalQuery(q) == q
    ensures InterpretAsWritten(q) == Err(NameError)
  {
    NoLettersUnchanged(q);
    DateClass(q);
  }

  lemma DateClass(q: string)
    requires DateShaped(q)
    ensures Classify(q) == q && ClassifyAsWritten(q) == Err(NameError)
  {
    NoKeywordInDate(q);
    assert q[0..10] == q;
    assert DateAt(q, 0);
  }

  /** `fetch_events` defaults the query to "this month", which classifies as `"this_month"` either way. */
  lemma DefaultQuery()
    ensures InterpretNaturalQuery("this month") == "this_month"
    ensures InterpretAsWritten("this month") == Ok("this_month")
  {
    DefaultQueryOf("this month");
  }

  lemma DefaultQueryOf(q: string)
    requires q == "this month"
    ensures InterpretNaturalQuery(q) == "this_month"
    ensures InterpretAsWritten(q) == Ok("this_month")
  {
    NoLettersUnchanged(q);
    MonthWordClass(q);
  }

  lemma MonthStable(r: string)
    requires r == "this_month"
    ensures InterpretNaturalQuery(r) == r
  {
    NoLettersUnchanged(r);
    MonthWordClass(r);
  }

  /** "this month" and "this_month" classify as `"this_month"`. */
  lemma MonthWordClass(q: string)
    requires q == "this month" || q == "this_month"
    ensures Classify(q) == "this_month" && ClassifyAsWritten(q) == Ok("this_month")
  {
    Absent("today", q, 2);
    Absent("week", q, 0);
    assert OccursAt("month", q, 5);
  }

  // ---------------------------------------------------------------------------
  // Classifying a range type again gives it back.
  // ---------------------------------------------------------------------------

  /** Each answer classifies as itself: the range types are fixed points of the classification. */
  lemma AnswerIsStable(query: string)
    ensures var r := InterpretNaturalQuery(query);
      InterpretNaturalQuery(r) == r
  {
    var r := InterpretNaturalQuery(query);
    ResultSet(query);
    if r == "today" {
      TodayStable(r);
    } else if r == "this_week" {
      WeekStable(r);
    } else if r == "this_month" {
      MonthStable(r);
    } else {
      DateClassifiesAsItself(r);
    }
  }

  lemma TodayStable(r: string)
    requires r == "today"
    ensures InterpretNaturalQuery(r) == r
  {
    NoLettersUnchanged(r);
    TodayClass(r);
  }

  lemma TodayClass(r: string)
    requires r == "today"
    ensures Classify(r) == r
  {
    assert OccursAt("today", r, 0);
  }

  lemma WeekStable(r: string)
    requires r == "this_week"
    ensures InterpretNaturalQuery(r) == "this_week"
  {
    NoLettersUnchanged(r);
    WeekClass(r);
  }

  lemma WeekClass(r: string)
    requires r == "this_week"
    ensures Classify(r) == "this_week"
  {
    Absent("today", r, 2);
    assert OccursAt("week", r, 5);
  }

  // ---------------------------------------------------------------------------
  // Case and surrounding whitespace do not matter.
  // ---------------------------------------------------------------------------

  /** Lower-casing the query first changes nothing: the classification ignores case. */
  lemma CaseInsensitive(query: string)
    ensures InterpretNaturalQuery(Lower(query)) == InterpretNaturalQuery(query)
  {
    assert Lower(Lower(query)) == Lower(query);
  }

  /** Whitespace in front of the query changes nothing. */
  lemma LeadingSpaceIgnored(c: char, query: string)
    requires IsSpace(c)
    ensures InterpretNaturalQuery([c] + query) == InterpretNaturalQuery(query)
  {
    var lowered := Lower(query);
    assert Lower([c] + query) == [c] + lowered by {
      assert ([c] + query)[1..] == query;
    }
    StripSkipsSpace(c, lowered);
  }

  lemma {:induction false} StripSkipsSpace(c: char, s: string)
    requires IsSpace(c)
    ensures Strip([c] + s) == Strip(s)
  {
    var t := [c] + s;
    assert t[1..] == s;
    assert LeadingSpaces(t) == 1 + LeadingSpaces(s);
    assert t[LeadingSpaces(t)..] == s[LeadingSpaces(s)..];
  }

  /** A string with no capital letter and no whitespace at either end normalizes to itself. */
  lemma NoLettersUnchanged(s: string)
    requires forall i :: 0 <= i < |s| ==> !IsUpper(s[i])
    requires s == [] || (!IsSpace(s[0]) && !IsSpace(s[|s| - 1]))
    ensures Normalize(s) == s
  {
    assert Lower(s) == s;
    assert LeadingSpaces(s) == 0;
    assert s[0..] == s;
    assert TrailingSpaces(s) == 0;
  }

  /** `word` cannot occur in `text` when its `k`-th letter does not appear in `text` at all. */
  lemma Absent(word: string, text: string, k: int)
    requires 0 <= k < |word|
    requires forall i :: 0 <= i < |text| ==> text[i] != word[k]
    ensures !Occurs(word, text)
  {
    forall i | 0 <= i <= |text| - |word|
      ensures !OccursAt(word, text, i)
    {
      assert text[i..i + |word|][k] != word[k];
    }
  }

  /** A date-shaped string is none of the three range types the keywords give: its fifth character is `-`. */
  lemma DateIsNotKeywordType(s: string)
    requires DateShaped(s)
    ensures s != "today" && s != "this_week" && s != "this_month"
  {
    assert |s| == 10 && s[4] == '-';
  }

  /** A date-shaped string holds none of the three keywords: it has no letters. */
  lemma NoKeywordInDate(s: string)
    requires DateShaped(s)
    ensures !HasKeyword(s)
  {
    Absent("today", s, 0);
    Absent("week", s, 0);
    Absent("month", s, 0);
  }
}

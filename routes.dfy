/**
 * The checks every calendar route makes before it talks to the calendar,
 * and the window `fetch_events` asks for. A parameter that is absent or empty
 * is answered with status 400; an address with no stored credentials is sent
 * to `/authorize`; otherwise the route goes on with the stored row.
 */
module Routes {
  import opened Wrappers
  import opened CivilTime
  import opened Credentials
  import opened NaturalQuery
  import opened DateRange
  import opened IsoFormat

  const AuthorizePath := "/authorize"
  const MissingEmail := "Missing email in query params"
  const MissingEmailOrId := "Missing email or event_id in query params"

  /** Where a route stands after its checks. */
  datatype Gate = BadRequest(message: string) | Redirect(location: string) | Proceed(record: Record)

  /** Python's `not value` on a query parameter: absent or the empty string. */
  predicate Missing(param: Option<string>) {
    param.None? || param.value == ""
  }

  /** The row lookup that follows the parameter check. */
  function Authorized(email: string, records: map<string, Record>): Gate {
    match Find(records, email)
    case None => Redirect(AuthorizePath)
    case Some(row) => Proceed(row)
  }

  /** The checks of `create_event` and `fetch_events`. */
  function EmailGate(email: Option<string>, records: map<string, Record>): Gate {
    if Missing(email) then BadRequest(MissingEmail)
    else Authorized(email.value, records)
  }

  /** The checks of `delete_event` and `update_event`. */
  function EmailAndIdGate(email: Option<string>, eventId: Option<string>, records: map<string, Record>): Gate {
    if Missing(email) || Missing(eventId) then BadRequest(MissingEmailOrId)
    else Authorized(email.value, records)
  }

  /**
   * The three outcomes of the e-mail check: 400 exactly when the address is
   * absent or empty, the redirect exactly when it has no row, and otherwise
   * the row filed under it.
   */
  lemma EmailGateOutcomes(email: Option<string>, records: map<string, Record>)
    requires KeysMatchEmails(records)
    ensures var g := EmailGate(email, records);
      && (g.BadRequest? <==> Missing(email))
      && (g.BadRequest? ==> g.message == MissingEmail)
      && (g.Redirect? <==> !Missing(email) && email.value !in records)
      && (g.Redirect? ==> g.location == AuthorizePath)
      && (g.Proceed? ==> g.record == records[email.value] && g.record.userEmail == email.value)
  {
  }

  /** With an event id present, the two-parameter check decides as the e-mail check does, with its own message. */
  lemma IdGateMatchesEmailGate(email: Option<string>, eventId: Option<string>, records: map<string, Record>)
    ensures Missing(eventId) ==> EmailAndIdGate(email, eventId, records) == BadRequest(MissingEmailOrId)
    ensures !Missing(eventId) ==>
      var g := EmailAndIdGate(email, eventId, records);
      var h := EmailGate(email, records);
      && (g.BadRequest? <==> h.BadRequest?)
      && (!g.BadRequest? ==> g == h)
  {
  }

  /** Once the callback has stored credentials for an address, every route goes on with exactly those credentials. */
  lemma ProceedsAfterAuthorization(
    records: map<string, Record>, email: string, creds: OAuthCredentials, eventId: Option<string>)
    requires email != ""
    ensures var after := Upserted(records, email, creds);
      && EmailGate(Some(email), after) == Proceed(Stored(email, creds))
      && (!Missing(eventId) ==> EmailAndIdGate(Some(email), eventId, after) == Proceed(Stored(email, creds)))
      && ToCredentials(Stored(email, creds)) == creds
  {
  }

  // ---------------------------------------------------------------------------
  // fetch_events
  // ---------------------------------------------------------------------------

  /** What `fetch_events` does once it has checked its parameters. */
  datatype FetchOutcome =
    | Refused(gate: Gate)
    | List(credentials: OAuthCredentials, timeMin: string, timeMax: string)
    | ServerError

  /** `request.args.get("query", "this month")`. */
  function QueryOrDefault(query: Option<string>): string {
    match query
    case None => "this month"
    case Some(text) => text
  }

  /** `fetch_events` with `re` imported: the checks, then the window of the classified query. */
  function FetchEvents(
    email: Option<string>, query: Option<string>, records: map<string, Record>,
    now: DateTime, parse: string -> Option<Date>): FetchOutcome
    requires now.Valid()
  {
    match EmailGate(email, records)
    case Proceed(row) =>
      (match GetDateRange(InterpretNaturalQuery(QueryOrDefault(query)), now, parse)
       case Ok(window) => List(ToCredentials(row), window.0, window.1)
       case Err(_) => ServerError)
    case gate => Refused(gate)
  }

  /** `fetch_events` as written: a query with no keyword ends in the `NameError` of the classification. */
  function FetchEventsAsWritten(
    email: Option<string>, query: Option<string>, records: map<string, Record>,
    now: DateTime, parse: string -> Option<Date>): FetchOutcome
    requires now.Valid()
  {
    match EmailGate(email, records)
    case Proceed(row) =>
      (match InterpretAsWritten(QueryOrDefault(query))
       case Err(_) => ServerError
       case Ok(rangeType) =>
         match GetDateRange(rangeType, now, parse)
         case Ok(window) => List(ToCredentials(row), window.0, window.1)
         case Err(_) => ServerError)
    case gate => Refused(gate)
  }

  /** Without a query the route lists the current month, the window `get_current_month_range` gives. */
  lemma DefaultFetchIsCurrentMonth(email: string, records: map<string, Record>, now: DateTime, parse: string -> Option<Date>)
    requires now.Valid() && email in records && email != ""
    requires GetCurrentMonthRange(now).Ok?
    ensures var window := GetCurrentMonthRange(now).value;
      && FetchEvents(Some(email), None, records, now, parse) == List(ToCredentials(records[email]), window.0, window.1)
      && FetchEventsAsWritten(Some(email), None, records, now, parse) == FetchEvents(Some(email), None, records, now, parse)
  {
    DefaultQuery();
    FetchOf(email, None, records, now, parse, "this_month", Ok("this_month"));
    MonthKeywordIsCurrentMonth("this_month", now, parse);
  }

  /** The route's outcome for a stored address, in terms of the range type its query classifies as. */
  lemma FetchOf(
    email: string, query: Option<string>, records: map<string, Record>,
    now: DateTime, parse: string -> Option<Date>,
    rangeType: string, written: Result<string, QueryError>)
    requires now.Valid() && email in records && email != ""
    requires InterpretNaturalQuery(QueryOrDefault(query)) == rangeType
    requires InterpretAsWritten(QueryOrDefault(query)) == written
    ensures FetchEvents(Some(email), query, records, now, parse) ==
      match GetDateRange(rangeType, now, parse)
      case Ok(window) => List(ToCredentials(records[email]), window.0, window.1)
      case Err(_) => ServerError
    ensures written.Err? ==> FetchEventsAsWritten(Some(email), query, records, now, parse) == ServerError
    ensures written.Ok? && written.value == rangeType ==>
      FetchEventsAsWritten(Some(email), query, records, now, parse) == FetchEvents(Some(email), query, records, now, parse)
  {
  }

  /** `get_date_range("this_month")` and `get_current_month_range()` give the same window. */
  lemma MonthKeywordIsCurrentMonth(rangeType: string, now: DateTime, parse: string -> Option<Date>)
    requires now.Valid() && rangeType == "this_month"
    ensures GetDateRange(rangeType, now, parse) == GetCurrentMonthRange(now)
  {
  }

  /** Where the route as written answers at all, it answers as the intended route does. */
  lemma FetchAsWrittenAgrees(
    email: Option<string>, query: Option<string>, records: map<string, Record>,
    now: DateTime, parse: string -> Option<Date>)
    requires now.Valid()
    ensures var written := FetchEventsAsWritten(email, query, records, now, parse);
      !written.ServerError? ==> written == FetchEvents(email, query, records, now, parse)
  {
    AsWrittenAgrees(QueryOrDefault(query));
  }

  /**
   * A query that is only a date, such as "2024-03-15": the route as written
   * fails where the intended one lists a window, and when the parser reads a
   * real date other than 9999-12-31, that window is the date's midnight to its
   * 23:59:59.
   */
  lemma FetchDateQueryFails(
    email: string, records: map<string, Record>, now: DateTime, parse: string -> Option<Date>, q: string)
    requires now.Valid() && email in records && email != ""
    requires DateShaped(q)
    ensures FetchEventsAsWritten(Some(email), Some(q), records, now, parse) == ServerError
    ensures FetchEvents(Some(email), Some(q), records, now, parse).List? <==> GetDateRange(q, now, parse).Ok?
    ensures var p := parse(q);
      p.Some? && NewDateTime(p.value.year, p.value.month, p.value.day).Ok?
      && !(p.value.year == MaxYear && p.value.month == 12 && p.value.day == 31) ==>
        FetchEvents(Some(email), Some(q), records, now, parse) ==
          List(ToCredentials(records[email]),
               Render(DateTime(p.value.year, p.value.month, p.value.day, 0, 0, 0, 0)),
               Render(DateTime(p.value.year, p.value.month, p.value.day, 23, 59, 59, 0)))
  {
    DateClassifiesAsItself(q);
    FetchOf(email, Some(q), records, now, parse, q, Err(NameError));
    DateIsNotKeywordType(q);
    ParsedOrFallback(q, now, parse);
  }
}

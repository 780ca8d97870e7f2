# Calendar assistant core, modelled in Dafny

The system is a small Flask service that creates, lists, updates and deletes
Google Calendar events on behalf of users. Each user authorizes the service
once through OAuth. This project models the parts of `final_calendar.py` that
hold logic of their own:

- **Query classification** (`NaturalQuery`). `interpret_natural_query` lower-cases and strips free text. It then answers `"today"`, `"this_week"` or `"this_month"` by fixed-priority substring tests. Failing those, it answers with the first `YYYY-MM-DD` in the text, and otherwise `"this_month"`.
- **Time-range resolution** (`CivilTime`, `IsoFormat`, `DateRange`). `get_date_range` and `get_current_month_range` turn a range type and the current time into a pair of `isoformat() + 'Z'` strings.
  - `CivilTime` models Python's `datetime` on the proleptic Gregorian calendar. It covers years 1 to 9999, the `ValueError` of an impossible date, and the `OverflowError` of arithmetic that leaves the range.
  - `IsoFormat` is `isoformat()` followed by `'Z'`, with a parser that reads it back.
- **Credential store** (`Credentials`). This is the `UserCredentials` table, keyed by e-mail address. `CredentialStore.Upsert` is the upsert of the OAuth callback, and `CredentialStore.Lookup` is the lookup every route starts with.
- **Route checks and the listing window** (`Routes`):
  - A missing parameter gives status 400 with the route's message.
  - An address with no stored row is redirected to `/authorize`.
  - `fetch_events` classifies its query (default `"this month"`) and asks for that window.
- **Event documents** (`Events`). `create_event` builds a body with defaults from the request. `update_event` patches a fetched event by key presence.

`now` and the date parser (`dateutil`'s `parse`) are parameters. The parser is an arbitrary function from text to an optional calendar date.

Behaviour of the code worth knowing, which the model keeps:

- Date extraction in `interpret_natural_query` has no `try` around it, so an error there reaches the route.
- `re` is not imported (see Findings).
- Line 165 overwrites a stored refresh token with `None` when the new credentials carry none.
- Windows are closed: `end` is the last whole second of the period (`- timedelta(seconds=1)`).

## Model

| member | source | states |
|---|---|---|
| CivilTime.NewDateTime | final_calendar.py:79 | `datetime(y, m, d)` succeeds exactly for years 1-9999, months 1-12 and days within the month (with Gregorian leap years), giving that day's midnight; otherwise it fails with `ValueError` |
| CivilTime.AddSeconds | final_calendar.py:80 | adding a `timedelta` of k seconds succeeds exactly when the result stays between 0001-01-01 00:00:00 and 9999-12-31 23:59:59; the result is exactly k seconds later with the same microseconds; otherwise `OverflowError` |
| CivilTime.Midnight | final_calendar.py:83 | `datetime(t.year, t.month, t.day)` of a valid date-time cannot fail and is that day's midnight |
| CivilTime.DaysBeforeYear | final_calendar.py:82 | the days before a year lie between 365 and 366 per elapsed year |
| CivilTime.DaysBeforeYearClosedForm | final_calendar.py:82 | the day count behind `weekday()` equals the Gregorian closed form 365·y + y/4 − y/100 + y/400 |
| CivilTime.OrdinalInjective | final_calendar.py:82 | two real dates with the same day number are the same date |
| CivilTime.FromOrdinalOfOrdinal | final_calendar.py:82 | converting a date to its day number and back gives the date |
| CivilTime.OrdinalBounds | final_calendar.py:80 | day numbers of valid dates lie in 1..3652059, and reach the top only on 9999-12-31 |
| CivilTime.Weekday | final_calendar.py:82 | `weekday()` as `(ordinal + 6) % 7`, so that 0001-01-01 is a Monday; `DateRange.WeekRangeSpec` proves the week it gives starts on a day with weekday 0 |
| CivilTime.SecondsInjective | final_calendar.py:80 | two valid date-times with the same second count and microseconds are equal |
| IsoFormat.Padded | final_calendar.py:73 | a zero-padded field has exactly the requested width and only digits |
| IsoFormat.PaddedRoundTrip | final_calendar.py:73 | a zero-padded field reads back as the number it was written from |
| IsoFormat.Isoformat | final_calendar.py:73 | `isoformat()` of a naive date-time has 19 characters, or 26 with microseconds, and is the date part, `T`, then the time part |
| IsoFormat.Render | final_calendar.py:73 | `isoformat() + 'Z'` has 20 characters, or 27 when microseconds are not zero; it is the date part, `T`, the time part, the `.ffffff` fraction only for non-zero microseconds, and a final `Z` |
| IsoFormat.RenderShape | final_calendar.py:104 | the rendering has `-`, `-`, `T`, `:`, `:` at positions 4, 7, 10, 13, 16, digits in every field and `Z` last |
| IsoFormat.RenderRoundTrip | final_calendar.py:104 | parsing the rendering gives back the date-time: rendering loses nothing |
| IsoFormat.ParseRendered | final_calendar.py:104 | whatever the reader accepts is a valid date-time |
| DateRange.Span | final_calendar.py:80 | `start + timedelta(...) - timedelta(seconds=1)` succeeds exactly when both sums stay in range; the window starts at `start` and ends `length - 1` seconds later with the same microseconds; otherwise `OverflowError` |
| DateRange.DayRange | final_calendar.py:79-80 | a day's window, built from `datetime(y, m, d)` and a one-day span; `DayRangeSpec` states its result and errors |
| DateRange.WeekStart | final_calendar.py:82-83 | midnight of `now - timedelta(days=now.weekday())`; `WeekRangeSpec` states it is the Monday on or before `now` |
| DateRange.WeekRange | final_calendar.py:81-84 | the week window from that Monday, seven days less a second; `WeekRangeSpec` states its result and its `OverflowError` |
| DateRange.MonthRange | final_calendar.py:85-90 | the month window, with the December rollover; `MonthRangeSpec` states its result and its `ValueError` |
| DateRange.NextMonthStart | final_calendar.py:87-90 | `datetime(year + 1, 1, 1)` in December and `datetime(year, month + 1, 1)` otherwise; `NextMonthStartSpec` states it |
| DateRange.GetDateRange | final_calendar.py:75-104 | `get_date_range` fails exactly when its window cannot be computed, with the same error, and its two strings read back as the window's start and end |
| DateRange.GetCurrentMonthRange | final_calendar.py:64-73 | `get_current_month_range` fails, with `ValueError`, exactly in December 9999; otherwise its strings read back as the month's first day at midnight and its last day at 23:59:59 |
| DateRange.DayRangeSpec | final_calendar.py:79-80 | a day's window is its midnight to its 23:59:59; it fails with `ValueError` for an impossible date and with `OverflowError` for 9999-12-31 |
| DateRange.TodayRange | final_calendar.py:78-80 | `"today"` is the window of the day of `now`; it fails only on 9999-12-31 |
| DateRange.WeekRangeSpec | final_calendar.py:81-84 | `"this_week"` starts at midnight of the Monday on or before `now` and ends on the following Sunday at 23:59:59, exactly 7 days less one second later; it fails, with `OverflowError`, exactly when that Sunday's next midnight is past 9999-12-31 |
| DateRange.MonthRangeSpec | final_calendar.py:85-90 | `"this_month"` runs from day 1 00:00:00 to the month's last day 23:59:59; it fails, with `ValueError`, only in December 9999 |
| DateRange.NextMonthStartSpec | final_calendar.py:87-90 | the first day of the next month (January of the next year after December) exists except after December 9999, and is the day after the month's last day |
| DateRange.SecondBefore | final_calendar.py:88 | one second before a midnight is 23:59:59 of the previous day |
| DateRange.LeapFebruaryExample | final_calendar.py:85-90 | February 2024 ends on the 29th at 23:59:59 |
| DateRange.CommonFebruaryExample | final_calendar.py:85-90 | February 2023 ends on the 28th at 23:59:59 |
| DateRange.DecemberExample | final_calendar.py:87-88 | December 2024 ends on 31 December 2024 at 23:59:59, not in January |
| DateRange.ParsedOrFallback | final_calendar.py:91-102 | a phrase the parser reads as a real date other than 9999-12-31 gives that day's window; any other non-keyword phrase gives exactly the `"this_month"` window, the same strings `get_current_month_range` returns |
| DateRange.ResolveRange | final_calendar.py:75-103 | the window `get_date_range` computes before rendering, branch by branch; every window it gives has valid ends, starts at a midnight, ends at 23:59:59 and starts before it ends |
| DateRange.DayValid | final_calendar.py:78-80 | a day window, when it exists, is well ordered |
| DateRange.WeekValid | final_calendar.py:81-84 | a week window, when it exists, is well ordered |
| DateRange.MonthValid | final_calendar.py:85-90 | a month window, when it exists, is well ordered |
| DateRange.KeywordRangeContainsNow | final_calendar.py:76-90 | the today, week and month windows start no later than `now` and end no earlier than `now` without its microseconds |
| DateRange.LastSecondEscapes | final_calendar.py:76-80 | within the last second of the day, `utcnow()` lies after the `"today"` window's end, because the end has no fraction of a second |
| NaturalQuery.Lower | final_calendar.py:111 | lower-casing keeps the length, maps `A`-`Z` to `a`-`z` and leaves every other character alone |
| NaturalQuery.LeadingSpaces | final_calendar.py:111 | the count of leading whitespace characters, stopping at the first other character |
| NaturalQuery.TrailingSpaces | final_calendar.py:111 | the count of trailing whitespace characters, stopping at the last other character |
| NaturalQuery.Strip | final_calendar.py:111 | stripping cuts only whitespace, from both ends, and leaves a text that neither starts nor ends with whitespace |
| NaturalQuery.Normalize | final_calendar.py:111 | the lower-cased, stripped query is no longer than the query, holds no `A`-`Z`, and neither starts nor ends with whitespace |
| NaturalQuery.SearchFrom | final_calendar.py:121-122 | the search finds the leftmost `\d{4}-\d{2}-\d{2}` at or after a position, with no match before it, or reports that there is none |
| NaturalQuery.SearchDate | final_calendar.py:121-123 | `re.search(...).group()` finds nothing exactly when no position holds a `YYYY-MM-DD`, and otherwise gives the ten characters at the leftmost such position |
| NaturalQuery.Classify | final_calendar.py:113-124 | the branches of `interpret_natural_query` on the normalized text; `KeywordPriority`, `LeftmostDate` and `ClassifyResultSet` state their outcome |
| NaturalQuery.InterpretNaturalQuery | final_calendar.py:107-124 | `interpret_natural_query` with `re` imported; `ResultSet`, `DateFallback`, `AnswerIsStable` and `CaseInsensitive` state its outcome |
| NaturalQuery.ClassifyAsWritten | final_calendar.py:113-121 | the branches as written, which raise `NameError` where the date search starts; `AsWrittenAgrees` states when |
| NaturalQuery.InterpretAsWritten | final_calendar.py:107-121 | `interpret_natural_query` as written; `AsWrittenAgrees` and `MissingImportExample` state its outcome |
| NaturalQuery.KeywordPriority | final_calendar.py:113-118 | "today" wins over "week" and "month", "week" wins over "month" |
| NaturalQuery.DateFallback | final_calendar.py:119-124 | without a keyword the answer is the leftmost date in the normalized text, or `"this_month"` when it holds none |
| NaturalQuery.LeftmostDate | final_calendar.py:121-124 | the date branch gives the first date in the text, or `"this_month"` without one |
| NaturalQuery.ResultSet | final_calendar.py:107-124 | the answer is `"today"`, `"this_week"`, `"this_month"`, or a `YYYY-MM-DD` occurring in the normalized query, which then holds no keyword |
| NaturalQuery.AnswerIsStable | final_calendar.py:107-124 | classifying an answer again gives the same answer |
| NaturalQuery.CaseInsensitive | final_calendar.py:111 | lower-casing the query first does not change the answer |
| NaturalQuery.LeadingSpaceIgnored | final_calendar.py:111 | whitespace in front of the query does not change the answer |
| NaturalQuery.StripSkipsSpace | final_calendar.py:111 | stripping a text with one more leading whitespace character gives the same result |
| NaturalQuery.DefaultQuery | final_calendar.py:237 | the default query "this month" classifies as `"this_month"`, in the code as written too |
| NaturalQuery.AsWrittenAgrees | final_calendar.py:113-121 | the function as written fails exactly when no keyword occurs, and otherwise agrees with the intended one |
| NaturalQuery.MissingImportExample | final_calendar.py:121 | the query "2024-03-15" should classify as itself, but the function as written raises `NameError` |
| NaturalQuery.DateClassifiesAsItself | final_calendar.py:119-123 | any bare `YYYY-MM-DD` classifies as itself, and makes the function as written raise `NameError` |
| Credentials.Stored | final_calendar.py:163-169 | the row the callback leaves carries the address, and its six fields rebuild exactly the new credentials |
| Credentials.ToCredentials | final_calendar.py:53-61 | `to_dict`: the six credential fields of a row; `Stored` states that it inverts the callback's writes |
| Credentials.Upserted | final_calendar.py:160-172 | the table after the callback has the old addresses plus the new one; the new address's row rebuilds the new credentials, and every other row is unchanged |
| Credentials.NewRecord | final_calendar.py:162 | a new row holds the address and leaves every other column empty |
| Credentials.FindIsColumnFilter | final_calendar.py:183 | on a table whose rows are filed under their own addresses, the lookup finds exactly the rows whose `user_email` column holds the address, as `filter_by(user_email=email).first()` does |
| Credentials.CredentialStore.constructor | final_calendar.py:318 | the table starts empty |
| Credentials.CredentialStore.Upsert | final_calendar.py:160-172 | the upsert leaves the table with the address's row replaced by, or added as, the address plus the six new credential fields, and every row still filed under its own address |
| Credentials.CredentialStore.Lookup | final_calendar.py:183-185 | the lookup answers with the row filed under the address, whose address is the one asked for, or with nothing |
| Credentials.LookupAfterUpsert | final_calendar.py:160-172 | after the upsert a lookup of the address finds a row whose six fields rebuild exactly the new credentials |
| Credentials.RefreshTokenOverwritten | final_calendar.py:165 | a stored refresh token is dropped when the new credentials carry none |
| Credentials.OthersUnchanged | final_calendar.py:160-172 | rows of other addresses are neither added, removed nor changed |
| Credentials.UpsertSize | final_calendar.py:160-162 | the upsert adds exactly one row for a new address and none for a known one |
| Credentials.LastWriteWins | final_calendar.py:164-169 | two upserts for one address leave what the second alone would leave |
| Credentials.UpsertIdempotent | final_calendar.py:164-169 | saving the same credentials twice is the same as saving them once |
| Credentials.OneRowPerEmail | final_calendar.py:45 | no two rows carry the same address |
| Credentials.UpsertKeepsKeys | final_calendar.py:160-172 | the upsert keeps every row filed under its own address |
| Routes.Authorized | final_calendar.py:183-185 | the row lookup and its redirect to `/authorize`; `EmailGateOutcomes` states the outcomes |
| Routes.EmailGate | final_calendar.py:179-185 | the checks of `create_event` and `fetch_events`; `EmailGateOutcomes` states the outcomes |
| Routes.EmailAndIdGate | final_calendar.py:265-273 | the checks of `delete_event` and `update_event`; `IdGateMatchesEmailGate` states the outcomes |
| Routes.EmailGateOutcomes | final_calendar.py:179-185 | 400 with "Missing email in query params" exactly when the address is absent or empty, the redirect to `/authorize` exactly when it has no row, otherwise the row filed under it |
| Routes.IdGateMatchesEmailGate | final_calendar.py:265-273 | without an event id the answer is 400 with "Missing email or event_id in query params"; with one, the check decides as the e-mail check does |
| Routes.ProceedsAfterAuthorization | final_calendar.py:183-187 | once credentials are stored for an address, every route goes on with a row that rebuilds exactly those credentials |
| Routes.QueryOrDefault | final_calendar.py:237 | `request.args.get("query", "this month")`: the given query, or "this month" when there is none; `DefaultFetchIsCurrentMonth` states what the default lists |
| Routes.FetchEvents | final_calendar.py:236-250 | `fetch_events` with `re` imported: its checks, then the window of the classified query; `DefaultFetchIsCurrentMonth` and `FetchDateQueryFails` state its outcomes |
| Routes.FetchEventsAsWritten | final_calendar.py:236-250 | `fetch_events` as written; `FetchAsWrittenAgrees` and `FetchDateQueryFails` state its outcomes |
| Routes.MonthKeywordIsCurrentMonth | final_calendar.py:64-73 | `get_date_range("this_month")` and `get_current_month_range()` give the same strings |
| Routes.DefaultFetchIsCurrentMonth | final_calendar.py:236-250 | without a query, `fetch_events` lists the current month's window, in the code as written too |
| Routes.FetchAsWrittenAgrees | final_calendar.py:249-250 | wherever `fetch_events` as written answers, it answers as the intended route does |
| Routes.FetchDateQueryFails | final_calendar.py:249-250 | a query that is just a `YYYY-MM-DD` makes `fetch_events` as written fail; the intended route lists a window exactly when `get_date_range` succeeds, and when the parser reads a real date other than 9999-12-31 it is that date's midnight to 23:59:59 |
| Events.TimeSlot | final_calendar.py:195-202 | the `{"dateTime": ..., "timeZone": "Asia/Kolkata"}` slot; `CreateEventFields` states its keys and values |
| Events.CreateEventBody | final_calendar.py:191-203 | the event `create_event` builds; `CreateEventFields` and `CreateEventNeedsObject` state it |
| Events.Patched | final_calendar.py:304-308 | the key-by-key result of `update_event`'s patch, the reference `ApplyPatch` is proved against; `PatchKeepsOtherKeys`, `PatchWritesNamedKeys`, `PatchFailsOnMissingSlot`, `EmptyPatchIsIdentity` and `PatchIdempotent` state it |
| Events.Get | final_calendar.py:192-196 | `dict.get` yields the stored value whenever the key is present, even `null`, and the default otherwise |
| Events.CreateEventFields | final_calendar.py:191-203 | the created event has exactly the five keys; each top-level field is the request's value or its default ("Sample Event", "", ""); start and end hold the request's value or `null` and the time zone "Asia/Kolkata" |
| Events.CreateEventNeedsObject | final_calendar.py:190-192 | building the body fails exactly when the request body is not a JSON object |
| Events.ApplyPatch | final_calendar.py:304-308 | applying the patch in place gives exactly the key-by-key patched event, or the exception the route turns into status 400 |
| Events.PatchWithText | final_calendar.py:304-308 | a string body fails with `TypeError` exactly when one of the five keys occurs in it, and otherwise leaves the event alone |
| Events.PatchWithObject | final_calendar.py:304-308 | the five conditional assignments give the key-by-key patched event |
| Events.WriteTopLevel | final_calendar.py:304-306 | the three top-level assignments copy over exactly the present summary, location and description |
| Events.WriteSlot | final_calendar.py:307-308 | writing a slot's `dateTime` fails with `KeyError` without the slot and with `TypeError` when it is not an object; otherwise only that slot's `dateTime` changes |
| Events.SlotsPatched | final_calendar.py:307-308 | the top-level writes followed by the start and end writes give the key-by-key patched event |
| Events.PatchKeepsOtherKeys | final_calendar.py:304-308 | a patch keeps every key of the event, adds only named top-level keys, and leaves unnamed keys as they were |
| Events.PatchWritesNamedKeys | final_calendar.py:304-308 | named top-level keys take the request's value; a named slot gets the new `dateTime`, and every other key of the slot, `timeZone` included, keeps its value |
| Events.PatchFailsOnMissingSlot | final_calendar.py:307-313 | the patch fails exactly when the request names a slot the event lacks or holds as a non-object |
| Events.EmptyPatchIsIdentity | final_calendar.py:304-308 | an empty request leaves the event unchanged |
| Events.PatchIdempotent | final_calendar.py:304-308 | applying the same request twice is the same as applying it once |
| Events.PatchOfDefaultIsCreate | final_calendar.py:191-203 | patching the body an empty create sends gives the body a create with that request sends |

## Left out

- HTTP routing, `jsonify`, `redirect` and `app.run` are left out. Only the outcome of each route's checks is modelled, by `Routes.EmailGate` and `Routes.EmailAndIdGate`.
- The OAuth flow, the token exchange and the user-info call are network calls. Their results are the inputs of `CredentialStore.Upsert`.
- The Google Calendar `insert`, `list`, `get`, `update` and `delete` calls are remote I/O. Only the bodies sent to them are modelled, and the event `update_event` fetches is a parameter.
- `delete_event` has no logic beyond its parameter and row checks, which `Routes.EmailAndIdGate` models.
- SQLAlchemy sessions and commits are persistence; the table is an in-memory map. The `id` column is not modelled, since nothing reads it.
- `json.dumps`/`json.loads` of the scopes are not modelled. The scopes are kept as a list, which that round trip gives back unchanged.
- `datetime.utcnow()`, environment variables and `.env` loading are ambient state; `now` is a parameter.
- `dateutil`'s `parse` is a foreign parser, so it is an arbitrary function parameter.
- The `'Z'` suffix and the `"Asia/Kolkata"` label are uninterpreted text. No time-zone offsets are modelled.
- The commented-out first `fetch_events` is dead code.
- NaturalQuery.Lower: maps only `A`-`Z`. Python's `str.lower()` also lower-cases non-ASCII letters, some of them into two characters.
- NaturalQuery.DateShaped: matches ASCII digits only. Python's `\d` on text also matches other Unicode decimal digits.
- Events.Value: covers JSON `null`, strings and objects. Numbers, booleans and arrays are not modelled, neither in a request body nor in the event `update_event` fetches (its `sequence`, `reminders` or `attendees`, say).
- Routes.FetchEvents: a `NameError`, `ValueError` or `OverflowError` escaping the route is one `ServerError` outcome. Flask's error page is not modelled.
- Events.CreateEventBody: only the request body is modelled, not `get_json()` failing on a request that is not JSON. In `create_event` that failure comes after the parameter and row checks (line 190). In `update_event` it comes after the parameter check but before the row lookup (line 292), so a non-JSON request for an address with no row gets `get_json()`'s error, not the redirect `Routes.EmailAndIdGate` gives.
- Credentials.CredentialStore.Upsert: upserts run one after another. Two concurrent first callbacks for a new address would both insert, and the second commit would break the unique `user_email` column (line 45) and fail, so the later write would not win as `LastWriteWins` states.
- Credentials.CredentialStore.Upsert: requires the table to keep every row under its own address. The unique `user_email` column guarantees this for the real table.

## Findings

| source | as written | input that shows it | evidently intended | confidence | as-written member | corrected member |
|---|---|---|---|---|---|---|
| final_calendar.py:121 | `re.search` is called, but `re` is never imported (lines 1-10), so a query with no "today", "week" or "month" raises `NameError`. `fetch_events` then fails instead of listing events. | the query `2024-03-15`, or an empty `query` parameter | the first `YYYY-MM-DD` in the query, or `"this_month"` when there is none | not executed | NaturalQuery.InterpretAsWritten, shown by NaturalQuery.MissingImportExample and Routes.FetchDateQueryFails | NaturalQuery.InterpretNaturalQuery, with NaturalQuery.ResultSet and NaturalQuery.DateFallback |

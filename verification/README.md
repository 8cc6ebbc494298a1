# evGRpc: a verified model

A Dafny model of the parts of evGRpc (a gRPC service over PostgreSQL for electric-vehicle records) that carry
real behaviour, with proofs about them. `dafny verify dfyconfig.toml` checks everything.

What the repository executes statement by statement is an imperative Dafny method or class here, proved against a
specification function; what the database computes from SQL is a function or, where SQL leaves the row order open,
a predicate satisfied by every order. The theorems are lemmas about those specifications.

| file | part of the repository |
|---|---|
| `Pool.dfy`, `PoolObjects.dfy` | the connection pool: a state machine over threads, locks and notifications, and the two classes behind it |
| `Calendar.dfy`, `Timestamp.dfy` | month lengths, day numbers, `timegm`; the parser of `TIMESTAMPTZ::text` against a printer of it |
| `PageToken.dfy`, `Paging.dfy` | page tokens, the look-ahead row, walks over `next_page_token` |
| `TextOrder.dfy` | the order of dates and instants that are selected, and therefore sorted, as text, in a session that shows and compares them |
| `Sql.dfy`, `Lists.dfy` | the list-query builder at the level of text: a reader of the SQL it writes, what the query means, and whole walks over the three lists |
| `Base64Url.dfy`, `Jwks.dfy` | base64url both ways, conversion of a key document, the TTL cache over runs of calls |
| `Conninfo.dfy` | percent-decoding and the two connection-string parsers |
| `Aggregates.dfy`, `Rows.dfy` | SUM, COUNT and GROUP BY over a scan; the rows |
| `Reports.dfy`, `Breakdowns.dfy`, `Joins.dfy`, `Temperature.dfy` | the display service's reports |
| `Tables.dfy` | the mutating handlers as transitions of the whole database |
| `Runs.dfy` | lists and read-back times over the databases that calls can reach |
| `Wrappers.dfy`, `Text.dfy`, `Decimal.dfy` | results, text search, decimal digits |

Conventions: an instant is a whole number of microseconds since 1970-01-01 UTC, money is in cents, energy in hundredths
of a kWh, temperature in tenths of a degree; ratios are exact reals. A vehicle id is the canonical text of its UUID.

Results a reader may not expect:

* The pool never gets stuck if and only if fewer `CreateVehicle` calls than connections run (`Pool.ProgressExactly`);
  otherwise a deadlock is reachable and permanent.
* Following `next_page_token` over a filtered charging or consumption list shows every matching row once, whatever the
  database chooses where ORDER BY leaves a choice, if and only if the matching rows start at different times
  (`Lists.ChargingListExactly`, `Lists.ConsumptionListExactly`). Storing one charging request twice makes a list for
  which it fails (`Runs.IncompleteListIsReachable`). The vehicle walk is always complete (`Lists.VehicleWalk`).
* Daily and monthly charging reports agree on every table if and only if the session is pinned to UTC
  (`Reports.DailyAgreesExactly`). README.md:259-266 of the repository describes the server's zone; the code pins UTC
  (src/db/pool.cc:34-35), and the model follows the code.
* A stored charging or consumption row need not satisfy the strict checks its request passed: equal times, no energy
  and no cost can be stored (`Tables.WeakChargeIsStored`, `Tables.WeakTripIsStored`). All rows of a run have rising
  times and positive amounts if and only if each call that took effect had times that do not collapse by rounding and
  amounts of at least 0.005 (`Tables.EveryRunIsStrictExactly`).
* In a year with charging, the monthly distances add up to the annual one exactly when the trips of months without
  charging have a distance of zero in total (`Reports.DistanceMissingExactly`); one trip of 10 km in such a month makes them fall short
  (`Reports.SomeDistanceIsMissing`).
* A client reads back the second it sent, or the next one exactly from 999999500 nanoseconds on
  (`Runs.ChargesReadBack`, `Runs.TripsReadBack`).

## Model

| member | source | states |
|---|---|---|
| Pool.Conservation | src/db/pool.cc:11-63 | in every reachable state each of the n connections is in exactly one place: idle, popped, owned by a live PgConn, or on its way back; none is lost or doubled |
| Pool.NoLostWakeup | src/db/pool.cc:45-64 | in every interleaving with late notifies, spurious wakes and newcomers, while a thread sleeps the idle connections are at most the pending notifies plus the awake contenders |
| Pool.AcquiresMatchReleases | src/db/pool.cc:11-16 | over any run, what a thread popped and no longer answers for it pushed back exactly once; moved-from handles push nothing |
| Pool.RunsAreBounded | src/db/pool.cc:40-69 | a run has at most as many steps as a measure of the remaining handler steps, plus two per spurious wake-up |
| Pool.MaximalRunsReturnEverything | src/db/pool.cc:40-69 | a run that cannot go on, with fewer CreateVehicle calls in flight than connections, has finished every handler and has all n connections idle |
| Pool.NotStuckBelowCapacity | src/services/vehicle_service.cc:66-103 | in every state of the invariant with fewer CreateVehicle calls in flight than connections some thread can act, whatever ran before |
| Pool.StuckExactly | src/services/vehicle_service.cc:66-103 | a state is stuck exactly when something is unfinished and sleeping CreateVehicle calls hold all n connections |
| Pool.DeadlockReachable | src/services/vehicle_service.cc:66-103 | with as many CreateVehicle calls as connections a run leads to a state where everybody sleeps |
| Pool.ProgressExactly | src/services/vehicle_service.cc:66-103 | no run gets stuck if and only if there are no handlers or fewer CreateVehicle calls than connections |
| Pool.DeadlockIsPermanent | src/db/pool.cc:45-50 | once stuck, no continuation finishes any unfinished handler, spurious wakes included |
| Pool.InvStep | src/db/pool.cc:40-69 | every action keeps conservation, the per-handler bound on connections and the no-lost-wake-up condition |
| Pool.FirstInFirstOut | src/db/pool.cc:40-63 | over any run, connections leave the pool in the order in which they lay there and came back |
| PoolObjects.PgPool.constructor | src/db/pool.cc:18-38 | the queue holds `size` distinct connections in order, none for a size that is not positive |
| PoolObjects.PgPool.Acquire | src/db/pool.cc:40-57 | takes the front of the queue into a fresh owning PgConn; blocks exactly on an empty queue and then changes nothing |
| PoolObjects.PgPool.Release | src/db/pool.cc:59-63 | the connection goes to the back of the queue |
| PoolObjects.PgConn.MoveFrom | src/db/pool.cc:15-16 | the new object has the old one's pool and connection, and the old one has neither |
| PoolObjects.PgConn.Destroy | src/db/pool.cc:11-13 | gives a connection back at most once, and nothing from a moved-from object |
| PoolObjects.GetVehicle | src/services/vehicle_service.cc:95-122 | run alone, rotates the front connection to the back, or blocks on an empty queue |
| PoolObjects.CreateVehicle | src/services/vehicle_service.cc:58-93 | run alone, blocks exactly with fewer than two idle connections; otherwise both come back once, inner first, moved or not |
| Calendar.PosixDaysAreSums | src/util/timestamp_parse.cc:74 | the closed form behind timegm counts exactly the year and month lengths that LastDayOfMonth gives, for all years |
| Calendar.YearIsTwelveMonths | src/util/last_day_of_month.cc:4-13 | the twelve month lengths make 365 or 366 days by the leap rule |
| Calendar.DayNumberOrder | src/util/last_day_of_month.cc:4-13 | on valid dates the day number orders as the calendar does and is injective |
| Calendar.NextDayIsNextNumber | src/util/last_day_of_month.cc:4-13 | valid dates follow one another with consecutive numbers |
| Calendar.DateExists | src/util/last_day_of_month.cc:4-13 | every integer is the number of a valid date |
| Calendar.CivilOfDayNumber | src/util/last_day_of_month.cc:4-13 | the civil date of a day number inverts the numbering: a bijection |
| Timestamp.ReadOffset | src/util/timestamp_parse.cc:34-60 | the suffix is accepted and valued exactly as the specification of offsets says, with every rejection |
| Timestamp.ParseTimestamp | src/util/timestamp_parse.cc:16-77 | computes the specified instant or fails, on every text |
| Timestamp.OffsetExactly | src/util/timestamp_parse.cc:34-60 | the accepted suffixes are none, `Z`, a sign with two digits of hours up to 14, and these with a colon and two digits of minutes up to 59; and what each stands for |
| Timestamp.WrittenReads | src/util/timestamp_parse.cc:16-77 | a strict date and time with any digits as fraction or none, and any suffix: the wall clock less the offset, or a failure exactly when the suffix is not accepted |
| Timestamp.EmptyFails | src/util/timestamp_parse.cc:17 | nothing is read from an empty text |
| Timestamp.FractionOnlyDropped | src/util/timestamp_parse.cc:21-29 | dropping a fraction removes the dot and its digits and never any of the offset |
| Timestamp.TimegmOfLocal | src/util/timestamp_parse.cc:70-74 | timegm undoes the rendering of any instant as a wall clock |
| Timestamp.RoundTrip | src/util/timestamp_parse.cc:16-77 | parsing PostgreSQL's text of an instant gives its seconds rounded down for every fraction, exactly for session offsets within 14:59; the parse fails beyond |
| Timestamp.StrictGetTimeReads | src/util/timestamp_parse.cc:64-73 | a reader of the wall clock as the model asks for exists |
| Timestamp.SessionOffsetIrrelevant | src/util/timestamp_parse.cc:31-74 | two sessions with different offsets read the same instant back |
| PageToken.ParsePageToken | src/util/page_token_parse.cc:9-49 | status and offset are those of the specified parse, for every token |
| PageToken.AgreesWithUnbounded | src/util/page_token_parse.cc:26-47 | on every text of blanks, sign and digits the saturating parse equals the unbounded value clamped below and refused above INT_MAX |
| PageToken.AcceptedDenotes | src/util/page_token_parse.cc:29-35 | nothing but the empty token and texts that denote an integer is accepted |
| PageToken.TokenRoundTrip | src/util/page_token_parse.cc:28-47 | the printed form of n is read back as n exactly up to INT_MAX |
| Paging.PageSizes | src/services/vehicle_service.cc:203-229 | a request for 1 to 999 rows gets that many as far as there are any, one for more gets 999, one for none or fewer gets 50, with the token of the next row |
| Paging.EmitPage | src/services/vehicle_service.cc:222-229 | emits the page and the token that the number of fetched rows calls for |
| Paging.LookAhead | src/services/vehicle_service.cc:212-229 | the extra row decides exactly whether more rows exist: a token is printed if and only if they do |
| Paging.NextOffsetFits | src/services/vehicle_service.cc:222-228 | offset plus page size stays within int for every request if and only if the table has at most 2^31 rows |
| Paging.NextToken | src/services/vehicle_service.cc:207-229 | a printed token is read back as the start of the next page |
| Paging.RespondsRightly | src/services/vehicle_service.cc:203-229 | the response to an accepted token has the rows at its offset, and its own token stands for the next offset while rows remain |
| Paging.FollowIsWalk | src/services/vehicle_service.cc:203-229 | following printed tokens from the empty one on is the walk over offsets, which ends, even when each request sees another order |
| Paging.WalkFrom | src/services/vehicle_service.cc:212-229 | over one fixed order, pages of any sizes join to exactly the rows from the offset on |
| Paging.SortedIsUnique | src/services/vehicle_service.cc:219 | a sorted arrangement under a strict total order is unique |
| Paging.StrictOrderWalk | src/services/vehicle_service.cc:216-229 | when the order has no ties the walk gives the sorted table, each row once, whatever the page sizes |
| Paging.SomeReads | src/services/charging_service.cc:398-414 | a database that answers within an ORDER BY exists for every table |
| Paging.TieLosesARow | src/services/charging_service.cc:398-414 | with two rows that tie in the ORDER BY there are answers and page sizes for which the walk has one row twice and another row of the table never |
| Paging.WalkExactly | src/services/charging_service.cc:398-414 | for any ORDER BY, every walk is complete if and only if no two rows of the table tie |
| Paging.StartTimeWalkExactly | src/services/charging_service.cc:398-414 | every walk of a list ordered by start time alone is complete if and only if start times are distinct |
| Sql.HolesAreParameters | src/services/charging_service.cc:372-402 | the placeholders in the text are exactly $1 to $n in order and n is the number of parameters |
| Sql.ReadBuilt | src/services/charging_service.cc:365-402 | reading the built text back gives the select list with its casts, the table, the conditions with theirs, the order and the two last placeholders it was built from |
| TextOrder.DateTextOrder | src/services/vehicle_service.cc:216-219 | texts of dates compare as the dates do, and equal texts are equal dates |
| TextOrder.TimeTextOrder | src/services/charging_service.cc:366-398 | texts of instants in a UTC session compare as the instants do, trimmed fractions included |
| TextOrder.InRangeExactly | src/services/charging_service.cc:70-73 | the years 1 to 9999 are exactly the instants a google.protobuf.Timestamp can hold |
| TextOrder.FiveDigitsSortFirst | src/services/charging_service.cc:398 | the text of the first instant of the year 10000 comes before that of any instant from the year 1001 on, so the range is needed |
| TextOrder.SomeUtcLocale | src/db/pool.cc:34-35 | a session exists that shows UTC, compares bytes, and tells all instants and dates apart |
| Lists.ChargingClausesAreFilter | src/services/charging_service.cc:372-392 | the clauses chosen for a request hold of a row exactly when the row passes the request's filter |
| Lists.ChargingQueryMeaning | src/services/charging_service.cc:365-402 | what a database returns for the built text and parameters, in any session and on any table: filter by the conjunction, sort by the text of the start descending, drop offset, take limit; in a UTC session and for years 1 to 9999 that is the sort by start |
| Lists.AddFilters | src/services/charging_service.cc:372-392 | after the filters the text and the parameters are those of the clauses that were given, in order |
| Lists.AddPage | src/services/charging_service.cc:398-402 | ORDER BY, LIMIT and OFFSET complete the text with the next two placeholders and their values |
| Lists.ListChargings | src/services/charging_service.cc:357-415 | a bad token fails; otherwise the response is the page and token of the rows the database sends for the query of the request's filters |
| Lists.ChargingPage | src/services/charging_service.cc:347-421 | a response is one page of the filtered table in an order by the text of the start, and by start in a UTC session and for years 1 to 9999 |
| Lists.ConsumptionClausesAreFilter | src/services/consumption_service.cc:335-348 | as for charging, with the three consumption filters |
| Lists.ConsumptionQueryMeaning | src/services/consumption_service.cc:328-359 | as for charging, with casts on the time placeholders |
| Lists.ListConsumptions | src/services/consumption_service.cc:323-374 | as for charging |
| Lists.ConsumptionPage | src/services/consumption_service.cc:309-380 | as for charging |
| Lists.ListResponse | src/services/charging_service.cc:357-415 | on a database that runs the built query, the response to an accepted token has as many of the matching rows as were asked for, from the token's offset on, and a token exactly while rows remain |
| Lists.ChargingListExactly | src/services/charging_service.cc:357-415 | for every table, filter and session that tells texts apart: every walk over ListChargings shows each matching row once, for all page sizes and all answers the query allows, if and only if the matching rows start at different times |
| Lists.ConsumptionListExactly | src/services/consumption_service.cc:323-374 | the same for ListConsumptions |
| Lists.ListVehicles | src/services/vehicle_service.cc:203-230 | a bad token fails; otherwise the response is the page and token of the rows sent for one row more than the page at the token's offset |
| Lists.VehicleResponse | src/services/vehicle_service.cc:203-230 | the same for the vehicle list |
| Lists.VehicleWalk | src/services/vehicle_service.cc:203-229 | whatever texts the session shows for different dates, PurchaseDate DESC, Id has no ties: every vehicle walk is the whole table in order, each vehicle once, and a database to walk over exists |
| Lists.VehicleOrderIsDateOrder | src/services/vehicle_service.cc:216-219 | in a UTC session and for dates of the years 1 to 9999 that order is later dates first, then ids |
| Base64Url.Base64UrlNoPad | tests/fixtures/test_server.cc:51-67 | the loop over triplets writes the encoding of the whole byte string |
| Base64Url.EncodeGroup | tests/fixtures/test_server.cc:56-64 | one round appends the two to four characters of the group at its index |
| Base64Url.AddPadding | src/auth/jwks_cache.cc:140 | pads to the next multiple of four |
| Base64Url.Base64UrlDecode | src/auth/jwks_cache.cc:128-162 | rewrites and pads the input and returns what the base64 filter makes of it, for any filter |
| Base64Url.StdRoundTrip | src/auth/jwks_cache.cc:142-161 | decoding the standard encoding of section 4 of RFC 4648 gives the bytes back |
| Base64Url.StdDecodeReads | src/auth/jwks_cache.cc:142-161 | a filter that reads every standard encoding exists |
| Base64Url.EncodeIsStandard | src/auth/jwks_cache.cc:128-140 | rewriting and padding the encoder's output is exactly the standard encoding, for all three length residues |
| Base64Url.RoundTrip | tests/fixtures/test_server.cc:51-67 | for every byte string, decoding what the encoder wrote returns it, through any filter that reads the standard encodings |
| Jwks.ConvertMeaning | src/auth/jwks_cache.cc:249-261 | one bad entry fails the document; otherwise the map holds exactly each kid's last entry |
| Jwks.ConvertDomain | src/auth/jwks_cache.cc:249-261 | the map has a kid exactly when some entry speaks for it |
| Jwks.EntryExactly | src/auth/jwks_cache.cc:251-259 | an item is skipped, fails or gives a key exactly in the cases its JSON tells: type, kty, kid, n and e |
| Jwks.IgnoredChangesNothing | src/auth/jwks_cache.cc:252-257 | an item that is no object, no RSA key, nameless, or without text for n or e changes nothing wherever it stands |
| Jwks.KeysOfDocument | src/auth/jwks_cache.cc:250-251 | the items are those of an array under "keys"; any other document has none |
| Jwks.DocumentExactly | src/auth/jwks_cache.cc:249-261 | a document converts if and only if no item spoils it, and then holds for each kid the PEM of the last item that gives one |
| Jwks.MissAnswersFromDocument | src/auth/jwks_cache.cc:267-291 | without a current key the answer is a PEM if and only if no item of the fetched JSON spoils it and the last item that gives the kid a key gives this one |
| Jwks.HitAnswersFromCache | src/auth/jwks_cache.cc:270-276 | a key fetched at most ttl ago is answered from the cache, which stays as it is |
| Jwks.FailedFetchAnswersNone | src/auth/jwks_cache.cc:282-286 | without a current key a failed fetch is answered None and changes nothing |
| Jwks.JwksCache.constructor | src/auth/jwks_cache.cc:242-243 | the cache starts empty and never fetched |
| Jwks.JwksCache.Refresh | src/auth/jwks_cache.cc:245-265 | replaces keys and time together when fetch and every entry succeed, and changes neither otherwise |
| Jwks.JwksCache.GetKey | src/auth/jwks_cache.cc:267-291 | answer and new state are those of the specified step |
| Jwks.CacheIsLastDocument | src/auth/jwks_cache.cc:245-291 | at every moment of every run the cache is the whole conversion of the last document that converted, with its time, or empty |
| Jwks.AnswersAreCurrent | src/auth/jwks_cache.cc:267-291 | every key handed out is the last word of a document fetched during the call or at most ttl before it, none fetched later |
| Jwks.FailsClosed | src/auth/jwks_cache.cc:267-291 | None is answered exactly when no unexpired key is cached and the fetch or an entry failed or no entry speaks for the kid |
| Jwks.FailedRefreshChangesNothing | src/auth/jwks_cache.cc:278-286 | a failed refresh keeps keys and time, and no expired key is handed out |
| Jwks.PublishedReads | src/auth/jwks_cache.cc:252-259 | an entry with encoded modulus and exponent is read as the key of exactly those bytes |
| Jwks.PublishedKeyIsServed | src/auth/jwks_cache.cc:245-291 | a published RSA key is served by the call that fetches it and by every later call within ttl while no later refresh succeeds |
| Conninfo.UrlDecode | tests/fixtures/pg_container.cc:53-77 | decodes every well-formed escape and keeps the rest, ending on all input |
| Conninfo.DecodeUndoesEncoding | tests/fixtures/pg_container.cc:53-77 | decoding undoes every percent-encoding of a byte string, upper or lower case, and an encoding has no delimiter |
| Conninfo.EscapedEncodes | tests/fixtures/pg_container.cc:53-77 | every byte string has a percent-encoding |
| Conninfo.HexDigitsExactly | tests/fixtures/pg_container.cc:56-61 | the hex digits are the sixteen of either case, with values 0 to 15 |
| Conninfo.EscapeReads | tests/fixtures/pg_container.cc:62-69 | an escape is read as the byte 16 times its first digit plus its second, whatever the case of either |
| Conninfo.OthersStay | tests/fixtures/pg_container.cc:69-74 | any other character, and a malformed escape, stays as it is |
| Conninfo.ParseUrl | tests/fixtures/pg_container.cc:120-173 | the index arithmetic computes the fields read off the text's authority and path, or the error |
| Conninfo.UrlRoundTrip | tests/fixtures/pg_container.cc:120-173 | every field of a written URL is recovered exactly; refused exactly when host, database or user is empty |
| Conninfo.IncompleteUrls | tests/fixtures/pg_container.cc:135-171 | a URL without '@' or without a path is refused for its missing user or database |
| Conninfo.ReadItem | tests/fixtures/pg_container.cc:181-208 | one round reads one item, ends, or reports its error, and its index advances |
| Conninfo.ParseKeyword | tests/fixtures/pg_container.cc:178-221 | the loop computes the fields of the items in order, or the first error, ending on all input |
| Conninfo.KeywordRoundTrip | tests/fixtures/pg_container.cc:178-221 | any writable list of items, bare or quoted, is read back item by item |
| Conninfo.LastItemWins | tests/fixtures/pg_container.cc:210-214 | each field is the value of the last item that names it, hostaddr naming the host |
| Conninfo.ItemsMean | tests/fixtures/pg_container.cc:178-221 | a text of items means their assignments in order, refused exactly when host, database or user ends up empty |
| Conninfo.BadEnd | tests/fixtures/pg_container.cc:186-201 | what cannot be read as an item makes the text fail with its error, after whatever items |
| Conninfo.ErrorsRead | tests/fixtures/pg_container.cc:186-201 | a word without '=' and a quote that is not closed are the two errors |
| Conninfo.ParseConninfo | tests/fixtures/pg_container.cc:227-230 | dispatches on the two URL schemes |
| Aggregates.ScanOrderIrrelevant | src/services/display_service.cc:669-680 | a sum over a table does not depend on the order of the scan |
| Aggregates.GroupsPartition | src/services/display_service.cc:303-312 | any sum over all groups of a GROUP BY is the sum over the rows |
| Aggregates.GroupingExists | src/services/display_service.cc:303-312 | every table and condition has a GROUP BY answer, so the statements about all answers are not empty |
| Aggregates.CountIsPositive | src/services/display_service.cc:59-66 | COUNT is positive exactly when EXISTS holds of the same condition |
| Reports.DailyAccepts | src/services/display_service.cc:644-660 | the daily report answers exactly for valid dates from 1900 on, and its rows are those of the UTC day's 86400 seconds |
| Reports.DailyGrows | src/services/display_service.cc:635-707 | one more charge adds its cost, its energy and one to the report of the UTC day it starts in and of its vehicle or of all, and nothing to others; year, month, day and vehicle are those asked for |
| Reports.MonthlyGrows | src/services/display_service.cc:709-768 | the same for the month by the session's clock, with the answered and refused arguments |
| Reports.AnnualGrows | src/services/display_service.cc:770-798 | the same for the year |
| Reports.EmptyReports | src/services/display_service.cc:635-798 | over no rows the three reports are zero |
| Reports.DaysUpTo | src/services/display_service.cc:635-707 | the daily reports of days 1 to n add up to the cost, energy or count of the rows that start in those UTC days |
| Reports.MonthsUpTo | src/services/display_service.cc:709-768 | the monthly reports 1 to n add up to the cost, energy or count of the rows of those months in the session's zone |
| Reports.DaysMakeMonth | src/services/display_service.cc:655-743 | for every table and vehicle filter, cost, energy and count of days 1 to LastDayOfMonth add up to the monthly report |
| Reports.MonthsMakeYear | src/services/display_service.cc:735-798 | the twelve monthly reports add up to the annual one, in any session zone |
| Reports.DailyAgreesExactly | src/db/pool.cc:34-35 | daily and monthly reports agree on all tables if and only if the session offset is zero |
| Reports.PeriodsAgree | src/services/display_service.cc:130-200 | the older monthly report answers exactly when the newer one counts a row, with the same totals: the vehicle clause of its EXISTS condition and the one appended to its sums select the same rows |
| Reports.YearsAgree | src/services/display_service.cc:217-277 | the same for the annual reports |
| Reports.MonthlyPeriodAnswers | src/services/display_service.cc:130-200 | the older monthly report answers exactly when its arguments are in range and a charge of that month and vehicle exists |
| Reports.AnnualPeriodAnswers | src/services/display_service.cc:217-277 | the same for the older annual report |
| Reports.MonthlyPeriodGrows | src/services/display_service.cc:155-197 | one more charge adds its cost and energy, one more trip its end mileage minus its begin mileage, when they are of the month and the vehicle |
| Reports.AnnualPeriodGrows | src/services/display_service.cc:240-277 | the same for the year |
| Reports.OneChargePeriod | src/services/display_service.cc:155-277 | over one charge and no trips both reports are that charge |
| Reports.AnnualKmIsAnsweredPlusUnreported | src/services/display_service.cc:144-186 | the annual distance is what the monthly reports answer plus the trips of months they refuse |
| Reports.DistanceMissingExactly | src/services/display_service.cc:229-263 | the months fall short exactly when the trips of months without charging have a distance other than zero in total; without backward trips, exactly when one of them moved |
| Reports.SomeDistanceIsMissing | src/services/display_service.cc:144-186 | with one charge in January and one trip of 10 km in February the months add up to less than the year |
| Breakdowns.EmitBreakdowns | src/services/display_service.cc:322-331 | one response row per result row, with the guarded average |
| Breakdowns.SummaryExactly | src/services/display_service.cc:43-110 | the summary answers exactly when a vehicle is named and has a charge in the window: the cost and energy of these charges, the cost per kWh, and the cost per km of the trips in the window |
| Breakdowns.ChargerAnswerExactly | src/services/display_service.cc:303-331 | an answer is one row for each kind of charger used in the window, with its cost and energy, fast before slow |
| Breakdowns.CategoryAnswerExactly | src/services/display_service.cc:360-395 | an answer is one row for each category in the table that was used in the window, under its name, with its cost and energy, dearest first |
| Breakdowns.BreakdownIsComplete | src/services/display_service.cc:303-312 | a breakdown by any key loses and invents nothing |
| Breakdowns.ChargersAgreeWithSummary | src/services/display_service.cc:59-110 | the summary answers exactly when the vehicle is named and the charger breakdown is not empty, with equal totals |
| Breakdowns.CategoriesMissDanglingRows | src/services/display_service.cc:360-370 | what the category breakdown misses is exactly the rows the inner join drops |
| Breakdowns.ThreeAnswersAgree | src/services/display_service.cc:303-370 | under the foreign key the summary and both breakdowns have equal totals for every vehicle and window |
| Joins.EnergyByVehicle | src/services/display_service.cc:452-456 | the map holds each vehicle's first row |
| Joins.MergeEfficiencies | src/services/display_service.cc:449-469 | the hash merge is the nested-loop left join |
| Joins.EfficiencyMeaning | src/services/display_service.cc:421-469 | each vehicle with trips is listed with its whole distance and its whole energy, in whatever order rows came |
| Joins.EfficiencyExactly | src/services/display_service.cc:421-469 | each listed vehicle has a trip in the window and carries its distance by mileages, its energy, km per kWh and kWh per 100 km, each 0 without a base |
| Joins.FullJoinIsOneGrouping | src/services/display_service.cc:503-521 | the full outer join of two equally filtered groupings is one grouping with two sums |
| Joins.FullJoinExactly | src/services/display_service.cc:503-521 | the joined rows are the pairs of one vehicle, left rows without a partner with 0, and right rows without one with NULL and 0 |
| Joins.EmitAccuracies | src/services/display_service.cc:527-540 | the loop emits every row that has a vehicle |
| Joins.NamelessAreSkipped | src/services/display_service.cc:527-533 | each joined row is one more entry unless its vehicle is NULL |
| Joins.RangeAccuracyMeaning | src/services/display_service.cc:503-540 | no joined row is skipped, and each entry carries its vehicle's two sums |
| Joins.AccuracyExactly | src/services/display_service.cc:503-540 | each entry is the range lost and the distance driven by its vehicle in the window, with their ratio, 0 when no range was lost |
| Joins.OneEntryPerVehicle | src/services/display_service.cc:503-540 | the rows name every vehicle with a trip in the window, no other, and each once |
| Temperature.BucketsPartition | src/services/display_service.cc:578-609 | each trip that moved is in exactly one bucket, and samples, distance and energy over the buckets are those of all of them |
| Temperature.LabelExactly | src/services/display_service.cc:597-603 | which temperatures a label stands for: highest plus lowest in tenths below 0, 200, 400 and 600, and above |
| Temperature.EnergyExactly | src/services/display_service.cc:582-588 | a charge counts for a trip of the same vehicle from 24 hours before its start to its end |
| Temperature.BucketExactly | src/services/display_service.cc:578-609 | every result row has one of the five labels and the number, distance and energy of the trips in the window that moved in its band |
| Temperature.EverySampleHasABucket | src/services/display_service.cc:578-609 | every trip in the window that moved has a row for its band |
| Temperature.BucketsAscend | src/services/display_service.cc:597-609 | ordering by lowest temperature emits labels in band order whatever the data |
| Temperature.BucketsArePositive | src/services/display_service.cc:594-623 | every bucket has a positive count and distance, so the loop's zero guard never applies |
| Temperature.LabelsAreDistinct | src/services/display_service.cc:597-603 | different bands have different labels |
| Temperature.EmitBuckets | src/services/display_service.cc:615-624 | the rate times the distance is the energy, per 100 km |
| Tables.StoredTimesIncreaseExactly | src/services/charging_service.cc:70-73 | times whose seconds increase are stored in order, and strictly so unless they collapse by rounding |
| Tables.StoredPositiveExactly | src/services/charging_service.cc:78-85 | a positive amount is stored as positive exactly from half a cent on |
| Tables.RoundedIsMonotone | src/services/consumption_service.cc:75-78 | rounding to one decimal keeps the order of the two temperatures |
| Tables.RoundedIsNearest | sql/001_initial.sql:52-53 | the nearest unit, of two the one further from zero, is the stored amount and no other |
| Tables.ChargeAcceptedExactly | src/services/charging_service.cc:69-95 | which charging requests the handler and the columns take: times in order within the years 1 to 9999, rising percent, amounts above 0 and below 99,999,999.995, a known charger type |
| Tables.TripAcceptedExactly | src/services/consumption_service.cc:66-85 | the same for consumption: falling percent, temperatures in order within 999.95 degrees, a weather id |
| Tables.CreateVehicleAnswers | src/services/vehicle_service.cc:65-92 | Ok and the new row exactly for a fresh id and plate, AlreadyExists otherwise |
| Tables.UpdateVehicleAnswers | src/services/vehicle_service.cc:131-158 | NotFound without the row, AlreadyExists for another's plate, Ok and the row otherwise |
| Tables.DeleteVehicleAnswers | src/services/vehicle_service.cc:169-187 | NotFound without the row, InvalidArgument when a charging or consumption row names it, Ok and the others otherwise |
| Tables.CreateCategoryAnswers | src/services/source_category_service.cc:25-42 | Ok and the new row exactly for a fresh id and name |
| Tables.CreateWeatherAnswers | src/services/weather_service.cc:22-39 | the same |
| Tables.CreateChargingAnswers | src/services/charging_service.cc:158-199 | Ok and the new row exactly for an accepted request with a fresh id whose vehicle and category exist, with the status of each refusal |
| Tables.UpdateChargingAnswers | src/services/charging_service.cc:241-315 | Ok and the changed row exactly for an accepted request on a row that is there, with existing references; NotFound when it is not |
| Tables.DeleteChargingAnswers | src/services/charging_service.cc:327-344 | Ok without the row exactly when it was there |
| Tables.CreateConsumptionAnswers | src/services/consumption_service.cc:107-169 | as for charging, with the weather |
| Tables.UpdateConsumptionAnswers | src/services/consumption_service.cc:214-276 | as for charging, with the weather |
| Tables.DeleteConsumptionAnswers | src/services/consumption_service.cc:288-306 | Ok without the row exactly when it was there |
| Tables.FaultsAnswer | src/services/charging_service.cc:190-199 | on top of that answer: the database's fault, a COMMIT that fails or reports nothing, and a failed read-back, with status and tables |
| Tables.Server.constructor | sql/001_initial.sql:13-66 | the tables start empty |
| Tables.Server.Commit | src/services/charging_service.cc:190 | the tables become the transaction's unless COMMIT failed with nothing done |
| Tables.Server.CreateVehicle | src/services/vehicle_service.cc:65-92 | status and tables are those of the transition, the read-back coming after the commit |
| Tables.Server.UpdateVehicle | src/services/vehicle_service.cc:131-158 | status and tables are those of the transition |
| Tables.Server.DeleteVehicle | src/services/vehicle_service.cc:169-187 | status and tables are those of the transition |
| Tables.Server.CreateSourceCategory | src/services/source_category_service.cc:25-42 | status and tables are those of the transition |
| Tables.Server.CreateWeather | src/services/weather_service.cc:22-39 | status and tables are those of the transition |
| Tables.Server.CreateCharging | src/services/charging_service.cc:158-199 | status and tables are those of the transition |
| Tables.Server.UpdateCharging | src/services/charging_service.cc:241-315 | status and tables are those of the transition |
| Tables.Server.DeleteCharging | src/services/charging_service.cc:327-344 | status and tables are those of the transition |
| Tables.Server.CreateConsumption | src/services/consumption_service.cc:107-169 | status and tables are those of the transition |
| Tables.Server.UpdateConsumption | src/services/consumption_service.cc:214-276 | status and tables are those of the transition |
| Tables.Server.DeleteConsumption | src/services/consumption_service.cc:288-306 | status and tables are those of the transition |
| Tables.RetryAfterReadBackFailure | src/services/vehicle_service.cc:79-86 | after a failed read-back a retry with the same plate is refused as existing |
| Tables.StatementTouchesItsKey | src/services/charging_service.cc:112-182 | a statement changes the row of its own key only, leaving there what the request describes: equal fields, times to the nearest microsecond, amounts to the nearest unit |
| Tables.NearestIsMicros | src/services/charging_service.cc:116-117 | the nearest microsecond, the even one of two, is the stored time and no other |
| Tables.TablesAreTheHistory | src/services/charging_service.cc:149-345 | after any run, each key of each table holds what the last call that took effect on it described, or nothing |
| Tables.EveryRunIsSound | sql/001_initial.sql:13-66 | in every run from empty tables: charging percent rises and times do not fall, consumption percent falls, highest is at least lowest, foreign keys and unique plates hold |
| Tables.StoredRowIsStrictExactly | src/services/charging_service.cc:69-95 | every accepted request can be the first row of a table, with rising times, energy and cost each exactly on its own condition |
| Tables.StoredChargeIsStrictExactly | src/services/charging_service.cc:69-95 | an accepted charging request is stored with rising times and positive amounts exactly when its times do not collapse and its amounts reach 0.005 |
| Tables.StoredTripIsStrictExactly | src/services/consumption_service.cc:66-78 | an accepted consumption request is stored with rising times exactly when its times do not collapse |
| Tables.StatementIsStrictExactly | src/services/charging_service.cc:69-182 | on tables whose rows are all strict, a statement leaves them so exactly when its request is strict |
| Tables.EveryRunIsStrictExactly | src/services/charging_service.cc:69-95 | for every run: all charging and consumption rows of all its tables have rising times and positive amounts if and only if every call that took effect had a strict request |
| Tables.WeakChargeIsStored | src/services/charging_service.cc:69-95 | a charging row with equal times, no energy and no cost is reachable |
| Tables.WeakTripIsStored | src/services/consumption_service.cc:66-70 | a consumption row with equal times is reachable |
| Tables.ThreeAnswersAgreeInEveryRun | sql/001_initial.sql:63 | in every reachable database the summary and both breakdowns have equal totals |
| Runs.StoredInRangeExactly | src/services/charging_service.cc:21-23 | a protobuf time is stored in the years 1 to 9999 unless it is the last second, rounded up |
| Runs.EveryStartFits | src/services/charging_service.cc:69-73 | in every reachable database all starts lie in the years 1 to 9999, because an end lies after them |
| Runs.EveryRunListsChargings | src/services/charging_service.cc:357-415 | in every reachable database and a UTC session the query of ListChargings filters by the request and sorts by start |
| Runs.EveryRunListsConsumptions | src/services/consumption_service.cc:323-374 | the same for ListConsumptions |
| Runs.IncompleteListIsReachable | src/services/charging_service.cc:398-414 | after the same charging request was stored twice, some walk over the unfiltered list is not complete, in every session |
| Runs.ChargesReadBack | src/services/charging_service.cc:26-45 | after any run, the times read back from a charging row are the seconds of the last request that wrote it, plus one exactly from 999999500 nanoseconds on; of the end when it is stored in the years 1 to 9999 |
| Runs.TripsReadBack | src/services/consumption_service.cc:27-45 | the same for a consumption row |

## Left out

- gRPC transport, authentication, request scopes, logging and `db::Exec`: side effects around the logic. `GetVehicle` authenticating again inside `CreateVehicle` is one cause of a failed read-back.
- libcurl, OpenSSL, the JSON parser and libpqxx: the fetched document, the PEM writer and database exceptions are parameters that may fail.
- OpenSSL's base64 filter is a parameter, required only to read the encodings of section 4 of RFC 4648; what it makes of malformed text is not modelled.
- IEEE doubles: reports, requests and ratios are exact; NaN and infinities, which pass some of the handlers' comparisons, are not modelled, nor is the narrowing of COUNT to a 32-bit integer.
- The lenient forms of `std::get_time`, years outside 0001..9999 and offsets with seconds: the function that reads the wall clock is a parameter, required to read the strict form.
- Malformed or non-canonical UUID text: an id is the canonical text; a syntax error of the database is one of the exceptions in a call's environment.
- PostgreSQL's rounding (microseconds half to even, decimals half away from zero) and its last date year are taken from its documentation.
- The collation of the database: statements about walks hold for every collation that tells texts apart, those about the sort by start for a comparison byte by byte.
- `TimeUtil::ToString` of protobuf: a time outside the bounds of google.protobuf.Timestamp has no text, so the statement that would store it is refused; a list filter with such a bound, which is refused likewise, is not modelled, nor is a nanosecond count outside 0 to 999999999.
- The two list handlers for charging and consumption share one method here, as they differ in their query and filters only.
- The five separate `if`s of the charging filters are one loop over the list of candidates, in the same order.
- Concurrent table changes during a page walk: offset paging promises nothing there, so the table is fixed while every request may see its own order of ties.
- Time zones with changing offsets: a session has one offset.
- Columns that no property mentions (brand, range, prices, remarks, locations, mileages of a charge), and reading single rows.
- Weather and category search, schema loading, argument parsing, charger labels, OIDC discovery, configuration file: easy members only.
- Mutexes and condition variables as objects: each critical section is one atomic action of the state machine; `PoolObjects` returns null where the program would wait.
- The order in which PostgreSQL reports several faults of one statement: an update is taken to report overflow, then a missing row, then constraints.

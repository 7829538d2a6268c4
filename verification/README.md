# honuware: a verified model of its core

honuware is a C++ web framework. This project models its most intricate parts in Dafny and
proves what they promise, for all inputs, all runs and all schedules. `dafny verify
dfyconfig.toml` checks everything. Pure code is modelled by functions; code that changes
things in place is modelled by classes and by methods with loops, each proved against a
function whose own properties are lemmas. I/O, clocks, the network, the database server and
the host's `mktime` are parameters or relations, and the theorems hold whatever they answer,
exceptions of the HTTP transport included.

| file | part of the system |
|---|---|
| `Pool.dfy`, `PoolMutex.dfy`, `PoolReentry.dfy`, `WeightedSum.dfy` | the bounded connection pool as a step relation over many threads: mutex, condition variable, lazy growth, notify, spurious wakeups, throwing opens, and work that calls the pool again |
| `Reconnect.dfy` | one pool slot: a transaction provider that reconnects against an adversarial connection |
| `Calendar.dfy`, `TimeZone.dfy` | month windows, local midnight and date tokens under the POSIX rules of the zone table |
| `ICal.dfy`, `ICalDocument.dfy`, `ICalReader.dfy`, `ICalGenerator.dfy` | iCalendar escaping, folding and whole documents (sections 3.1 and 3.3.11 of RFC 5545), and a reader that finds each event's fields again |
| `Json.dfy` | the JSON printer and a reference reader (sections 2 to 7 of RFC 8259) |
| `Cookies.dfy`, `ApiClient.dfy` | the scheduler client's cookie jar, its requests, and the server's CSRF guard |
| `Schema.dfy`, `SchemaObjects.dfy` | the schema builder and its foreign-key graph, as values and as shared objects |
| `Rebuild.dfy`, `Catalog.dfy` | rebuilding the schema from the database's catalog in dependency order |
| `Fonts.dfy`, `FontChoices.dfy`, `FontStore.dfy` | the whole-inventory font PUT, with doubled family names too |
| `Targets.dfy`, `JobScheduler.dfy`, `Timers.dfy` | scheduler sessions, refresh, and the timers against a delaying event loop |
| `Templates.dfy` | `{column}` templates |
| `SqlNames.dfy`, `SqlUpdate.dfy` | name escaping, the UPDATE and WHERE builders, a reader for the text they produce and an evaluator over rows |
| `Text.dfy`, `Wrappers.dfy` | decimal numbers, searching, joining and splitting; optional values |

## What turned out to be conditional

Where a promise of the code does not hold everywhere, the model keeps the code and states
exactly when it does.

- Month windows contain their timestamp exactly when the sixteen-bit `date::year` holds the
  year of the month and of the month after it (`Calendar.MonthWindowContains`).
- Key-by-key template replacement equals one substitution for every row in which no value can
  start the placeholder of a later key, if and only if no placeholder of the template holds
  an opening brace (`Templates.FaithfulExactly`). For two keys the condition on the values is
  exact too, up to a value that is its own placeholder (`Templates.SubstitutionExactly`).
- Work that calls the pool again deadlocks exactly when the pool is full grown, nothing is
  free and every provider is held by a call whose work waits for another call that is
  acquiring or holding one (`PoolReentry.EndsExactly`); nothing that happens later helps
  (`PoolReentry.DoomedForever`). In a pool of one every inner call does it
  (`PoolReentry.PoolOfOne`); with fewer waiting calls than connections it cannot happen
  (`PoolReentry.EnoughConnections`).
- Date tokens survive the trip to an instant and back exactly when their year fits sixteen
  bits (`TimeZone.DateTokenRoundTrip`); local midnight is at or before the timestamp except
  for negative timestamps with a fraction that truncation carries up to exactly a local
  midnight (`TimeZone.MidnightAtOrBefore`).
- An event's times read back to their second exactly when their year has four digits
  (`ICalReader.TimeReadsExactly`). Names are escaped as text, which touches neither colons nor
  double quotes, so a reader finds a person's address exactly when the name has no colon
  outside quotes and closes its quotes (`ICalReader.AddressReadsExactly`).
- A builder call that throws leaves the schema as it was, except a foreign key onto a column
  that exists without a reference: the reference stays behind (`Schema.ThrowingCallChangesNothing`)
  and can be a cycle (`Schema.FailedCallCanMakeCycle`).
- The rebuild loop ends exactly when the foreign-key graph of the allowed tables is acyclic
  and every parent of an allowed table is allowed (`Rebuild.FinishesExactly`). A table that
  refers to itself makes it spin.
- The rebuilt schema has all of the catalog's foreign keys exactly when no table has two to
  one parent and no column refers to two parents (`Catalog.KeysKeptExactly`), because only the
  first link between two tables is read. `permission_implications` has two to `permissions`
  and loses one (`Catalog.SecondKeyIsLost`).
- A refresh with a changed job list ends with the jobs running exactly when no target's login
  throws (`JobScheduler.RefreshEndsExactly`). The HTTP client throws on every transport failure
  and nothing between it and `Refresh` catches that, so one unreachable target leaves the
  engine stopped with the new jobs and no timer, and the same list never starts it again
  (`JobScheduler.RepeatsChangeNothing`, `JobScheduler.UnreachableTargetStops`). In the event
  loop the exception goes on to the caller of `Run`.
- Statements name tables and columns by their lower case, so they name what was asked for
  exactly when it is in lower case (`SqlUpdate.NamesAskedExactly`). The update text is refused
  exactly when there is nothing to set or two keys are equal without case
  (`SqlUpdate.UpdateTextMeans`).
- Family names carry no unique constraint. After a font PUT the names are distinct exactly
  when no two rows shared a listed name before (`Fonts.PutKeeps`). With doubled names the
  result depends on which row the database returns. Whichever it is, no source id is left
  dangling exactly when each doubled row refers to no source or to one that stays
  (`FontChoices.DanglesExactly`), and repeating the PUT changes nothing exactly when each
  doubled row already held what the payload wants (`FontChoices.RepeatsExactly`).
- A timer runs its job by name, so it runs that job exactly when no earlier job has the same
  name (`JobScheduler.TimerRunsItsJob`).
- `started_` cannot tell a wait armed before a reload from one armed after it. A reload can
  make a callback read past the job list exactly when an expired, undelivered wait has an
  index beyond the new list (`Timers.ReloadFaultsExactly`); without such waits across a stop
  it never happens (`Timers.QuietRunsAreFresh`).
- A target shares its session key with no other possible target exactly when it has no
  headers and no newline in its three texts (`Targets.KeyIsOwnExactly`); so every target with
  a header shares its key with another possible one. Among targets without newlines two
  share a key exactly when their texts agree and, header by header, the headers are equal or
  one name starts with the other followed by ": " and the lines agree
  (`Targets.SameKeyExactly`), and a target's key is its own exactly when no header name or
  value holds ": " (`Targets.OwnAmongLikeExactly`).
- Registering moves the jobs out of the scheduler's own list, so a second `Initialize` without
  a provider registers emptied jobs (`JobScheduler.SecondInitialize`).

Where code and documentation disagree, the model follows the code:

- `job_scheduler.h` calls `AuthenticateTargets` idempotent for cached targets. The code logs
  in again on every call, once per distinct target (`JobScheduler.OneLoginPerTarget`).
- A comment in `scheduler.cpp` says the calls of a target whose login failed answer 401 until
  the next refresh. A refresh that gets the same job list changes nothing
  (`JobScheduler.Scheduler.Refresh`); it is each call that answers 401 that logs in again
  (`ApiClient.Client.CallEndpoint`).
- `AddForeignKeyReference` refuses a second parent for a child only when both its table and
  its column differ; otherwise it silently keeps the first (`Schema.DoAddReference`).

## Model

| member | source | states |
|---|---|---|
| `Pool.PooledTransactionProvider.constructor` | components/data/sql_util/database_access/pooled_transaction_provider.cpp:47-50 | a non-positive bound becomes one; the pool starts empty |
| `Pool.PooledTransactionProvider.TryAcquire` | components/data/sql_util/database_access/pooled_transaction_provider.cpp:56-84 | one inspection under the mutex refines the protocol's decision: take the last free provider, grow, or wait |
| `Pool.PooledTransactionProvider.ConnectionOpened` | components/data/sql_util/database_access/pooled_transaction_provider.cpp:72-74 | a new provider gets a number never used before |
| `Pool.PooledTransactionProvider.ReleaseProvider` | components/data/sql_util/database_access/pooled_transaction_provider.cpp:86-92 | the provider goes back to the free list and nothing else changes |
| `Pool.InvStep` | components/data/sql_util/database_access/pooled_transaction_provider.cpp:56-104 | every step of every thread keeps the mutex, conservation, wakeup and history invariants |
| `Pool.InvReachable` | components/data/sql_util/database_access/pooled_transaction_provider.cpp:56-104 | the invariants hold in every reachable state, for any bound and number of threads |
| `Pool.PoolConserved` | components/data/sql_util/database_access/pooled_transaction_provider.cpp:56-104 | created = free + held, at most max(1, bound); every created provider is free or held, never twice and never both; at most the bound run at once |
| `Pool.NoLostWakeup` | components/data/sql_util/database_access/pooled_transaction_provider.cpp:78-92 | while a thread sleeps, free providers are at most the notifications owed plus the woken waiters, and somebody not asleep holds a provider or is about to act |
| `Pool.OpenThrowsChangesNothing` | components/data/sql_util/database_access/pooled_transaction_provider.cpp:64-76 | a connection that fails to open leaves the pool as it was and frees the mutex |
| `Pool.RankStep` | components/data/sql_util/database_access/pooled_transaction_provider.cpp:56-104 | each internal move lowers the work left; a call or a spurious wakeup raises it by a fixed amount |
| `Pool.BoundedWork` | components/data/sql_util/database_access/pooled_transaction_provider.cpp:56-104 | over every run, internal moves are bounded by the calls and spurious wakeups |
| `Pool.NoDeadlock` | components/data/sql_util/database_access/pooled_transaction_provider.cpp:56-104 | while any call is unfinished, some thread can make an internal move |
| `Pool.EveryCallCompletes` | components/data/sql_util/database_access/pooled_transaction_provider.cpp:94-104 | without new calls every run is finite, and one that cannot go on has ended every call and returned every provider, normal or exceptional |
| `Pool.PoolSerializes` | components/data/sql_util/database_access/pooled_transaction_provider.cpp:94-104 | transactions on one provider never overlap; every history of a pool of one is one that a single mutex allows, and the running thread is its owner |
| `PoolMutex.EveryMutexHistoryOccurs` | components/data/sql_util/database_access/pooled_transaction_provider.cpp:94-104 | conversely, every history that a single mutex allows to the threads is the history of some run of a pool of one |
| `PoolReentry.DoomedForever` | components/data/sql_util/database_access/pooled_transaction_provider.cpp:94-104 | once every provider is held by a call waiting for another one, it stays so over every run, with new calls, inner calls and spurious wakeups |
| `PoolReentry.EndsExactly` | components/data/sql_util/database_access/pooled_transaction_provider.cpp:56-104 | with work that calls the pool again: without further calls every run is finite, and one that cannot go on has ended every call if and only if at its start not every provider was held by a call waiting for another one |
| `PoolReentry.ReachedEndsExactly` | components/data/sql_util/database_access/pooled_transaction_provider.cpp:56-104 | the same in every state reached from a new pool by any mix of calls, inner calls and moves |
| `PoolReentry.PoolOfOne` | components/data/sql_util/database_access/pooled_transaction_provider.cpp:56-104 | in a pool of one every inner call is that deadlock |
| `PoolReentry.EnoughConnections` | components/data/sql_util/database_access/pooled_transaction_provider.cpp:56-104 | with fewer waiting calls than connections there is none |
| `Pool.ProcessTotal` | components/data/sql_util/database_access/pooled_transaction_provider.cpp:15-54 | the process-wide count equals the connections of the live pools, less those whose opener has not reached the counter |
| `Reconnect.Reset` | components/data/sql_util/database_access/database_helper.cpp:66-73 | a failed reset keeps current and retired connection; a successful one retires the current one |
| `Reconnect.ProductionTransactionProvider.constructor` | components/data/sql_util/database_access/database_helper.cpp:51-56 | starts on its first connection |
| `Reconnect.ProductionTransactionProvider.ResetConnection` | components/data/sql_util/database_access/database_helper.cpp:66-73 | the object's swap refines `Reset` |
| `Reconnect.ProductionTransactionProvider.RunInTransaction` | components/data/sql_util/database_access/production_transaction_provider.cpp:27-68 | the statement-by-statement body refines the transaction function, for every adversary |
| `Reconnect.RunKeeps` | components/data/sql_util/database_access/production_transaction_provider.cpp:27-68 | a call runs its work once or not at all, as its outcome says, and succeeds exactly when its last act is a commit that succeeded on the current connection |
| `Reconnect.RunAsks` | components/data/sql_util/database_access/production_transaction_provider.cpp:27-68 | the questions of a call follow in source order from the check on entry, with one retry at most, and its outcome is told by the last question and answer |
| `Reconnect.NeverRunTwice` | components/data/sql_util/database_access/production_transaction_provider.cpp:61-67 | over every number of calls and schedule of failures, no work runs twice, work runs only right after a BEGIN on the current connection, commit only after work returned |
| `Reconnect.FailedResetKeepsConnection` | components/data/sql_util/database_access/production_transaction_provider.cpp:14-25 | a failed reconnect ends the call with the old connection in place and the work not run |
| `Reconnect.DeadConnectionRecovers` | components/data/sql_util/database_access/production_transaction_provider.cpp:37-59 | a connection that died while idle is replaced and the work runs |
| `Calendar.CivilFromDays` | components/foundation/util/date_time_util.cpp:290-297 | every day number is a valid date whose day number it is |
| `Calendar.CivilRoundTrip` | components/foundation/util/date_time_util.cpp:274-280 | every valid date is the date of its day number |
| `Calendar.DaysFollow` | components/foundation/util/date_time_util.cpp:274-297 | day zero is 1970-01-01 and each day number's successor is the next day of the calendar as month lengths and leap years define it |
| `Calendar.Year16` | components/foundation/util/date_time_util.cpp:274-280 | what sixteen bits keep of a year, and that it is the year exactly when it fits |
| `Calendar.MonthWindowContains` | components/foundation/util/date_time_util.cpp:290-306 | start ≤ t < end exactly when the years involved fit |
| `Calendar.WindowsAreCalendarMonths` | components/foundation/util/date_time_util.cpp:274-306 | the window runs from the first of the month to the first of the next, December included |
| `Calendar.MonthWindowsTile` | components/foundation/util/date_time_util.cpp:274-306 | for every timestamp: a window's end starts a window, starts are fixed points, and two timestamps share a start exactly when they share stored year and month, which for years that fit is year and month |
| `TimeZone.ListedZone` | components/foundation/util/date_time_util.cpp:193-209 | every name in the table gives a zone the theorems cover |
| `TimeZone.ZonesApart` | components/foundation/util/date_time_util.cpp:193-209 | thirteen names have zones, and daylight time is kept in all but four of them |
| `TimeZone.HoursApart` | components/foundation/util/date_time_util.cpp:195-198 | Los Angeles is eight hours behind UTC, and Denver, Chicago and New York are an hour apart going east |
| `TimeZone.HoursWest` | components/foundation/util/date_time_util.cpp:199-206 | UTC is zero, Anchorage and Honolulu are an hour apart going west, Phoenix has Denver's standard time |
| `TimeZone.SameZones` | components/foundation/util/date_time_util.cpp:202-205 | the US names are the same zones as their cities |
| `TimeZone.ChangeDays` | components/foundation/util/date_time_util.cpp:193-209 | the clocks change on the second Sunday of March and the first Sunday of November of every year |
| `TimeZone.ChangesAtTwo` | components/foundation/util/date_time_util.cpp:193-209 | the clock goes from 02:00 to 03:00 in spring and from 02:00 back to 01:00 in autumn |
| `TimeZone.AnswerShows` | components/foundation/util/date_time_util.cpp:394-414 | every answer of `mktime` shows the requested time, or lies an hour off on the same day when the time is in the spring gap |
| `TimeZone.ShownOnce` | components/foundation/util/date_time_util.cpp:213-236 | outside the repeated hour at most one instant shows a wall time |
| `TimeZone.RepeatedHour` | components/foundation/util/date_time_util.cpp:213-236 | clocks go back only within the repeated hour |
| `TimeZone.ToLocalTm` | components/foundation/util/date_time_util.cpp:213-236 | the broken-down time is the wall time of the truncated second |
| `TimeZone.Mktime` | components/foundation/util/date_time_util.cpp:394-414 | one host behaviour that the relation allows |
| `TimeZone.MidnightIsMidnight` | components/foundation/util/date_time_util.cpp:314-352 | midnight shows 00:00:00 on the same local date, is idempotent, and lies less than 25 hours back, across daylight-saving changes |
| `TimeZone.MidnightAtOrBefore` | components/foundation/util/date_time_util.cpp:314-352 | midnight ≤ t exactly outside the truncation case |
| `TimeZone.GetMidnightUs` | components/foundation/util/date_time_util.cpp:314-352 | the method has these properties for every timestamp, and midnight ≤ t < midnight + 25 h for every non-negative one |
| `TimeZone.DateTokenRoundTrip` | components/foundation/util/date_time_util.cpp:416-449 | for every token and minute of the day, whichever way `mktime` resolves gap and repeat, the token comes back exactly when its year fits |
| `TimeZone.DateTokenAnyMinute` | components/foundation/util/date_time_util.cpp:416-449 | minutes past either end of the day move the token by whole days |
| `TimeZone.CalendarDateWallClockToUs` | components/foundation/util/date_time_util.cpp:416-435 | the step-by-step method, for every number of minutes, asks for the token's date and has both properties, and outside the hour of a gap the clock shows the token's date at that many minutes |
| `ICal.EscapeICalText` | components/foundation/util/ical_generator.cpp:65-79 | the escaping loop computes the escaped text |
| `ICal.EscapeRoundTrip` | components/foundation/util/ical_generator.cpp:65-79 | escaped text holds no CR or LF and unescapes to the original without CR |
| `ICal.BackOff` | components/foundation/util/ical_generator.cpp:222-226 | stops at the nearest octet that does not continue a character |
| `ICal.ChooseTake` | components/foundation/util/ical_generator.cpp:215-230 | the loop picks the segment length of the specification |
| `ICal.FoldLine` | components/foundation/util/ical_generator.cpp:202-240 | the fold loop ends and joins the segments with CRLF and a space |
| `ICal.FoldSplits` | components/foundation/util/ical_generator.cpp:202-240 | segments concatenate to the line; each physical line is at most 75 octets |
| `ICal.BackOffFinds` | components/foundation/util/ical_generator.cpp:222-230 | on well-formed UTF-8 the back-off loses at most three octets, so the fallback is never taken |
| `ICal.FoldKeepsCharacters` | components/foundation/util/ical_generator.cpp:202-240 | on well-formed UTF-8 every segment is well-formed |
| `ICalDocument.UnfoldFold` | components/foundation/util/ical_generator.cpp:202-240 | unfolding a folded line gives the line back, in front of anything |
| `ICalDocument.FoldAll` | components/foundation/util/ical_generator.cpp:172-187 | the document loop folds line by line |
| `ICalGenerator.EmitVEvent` | components/foundation/util/ical_generator.cpp:109-148 | appends exactly the event's lines, in order, under their conditions |
| `ICalGenerator.EmitHead` | components/foundation/util/ical_generator.cpp:151-165 | appends exactly the calendar's header lines |
| `ICalGenerator.GenerateImpl` | components/foundation/util/ical_generator.cpp:151-187 | the generated document, when the unescaped fields hold no CR, unfolds to the emitted lines with every physical line ≤ 75 octets, and a reader of it finds the head and, for every event in order, each property with the event's own field: times, identity, texts, recurrence and people, the optional ones exactly when their field is not empty |
| `ICalReader.CalendarDescribed` | components/foundation/util/ical_generator.cpp:109-167 | the emitted lines, read by property name, are the fields of the events and of the configuration |
| `ICalReader.EventDescribed` | components/foundation/util/ical_generator.cpp:109-148 | the same for one event: DTSTART and DTEND are its start and end, floating or in UTC as it says; SUMMARY, LOCATION and DESCRIPTION unescape to its texts; UID, SEQUENCE, STATUS, RRULE and both addresses are its own |
| `ICalReader.TimeReadsExactly` | components/foundation/util/ical_generator.cpp:18-54 | a printed time, with or without its "Z", reads back to the whole second if and only if its year is 0 to 9999 |
| `ICalReader.AddressReadsExactly` | components/foundation/util/ical_generator.cpp:139-146 | the address behind a name is what a reader finds if and only if the name has no colon outside double quotes and closes its quotes |
| `ICalDocument.ReadsBack` | components/foundation/util/ical_generator.cpp:172-187 | the same for any list of proper lines |
| `ICalDocument.CalendarReadsBack` | components/foundation/util/ical_generator.cpp:151-187 | the same lines read back for any list of events |
| `Json.AppendEscapedJsonString` | components/foundation/util/json_value.h:85-111 | the escaping loop appends the printed string |
| `Json.AppendJson` | components/foundation/util/json_value.h:435-481 | the recursive append computes the printed value |
| `Json.ReadPrinted` | components/foundation/util/json_value.h:435-481 | reading a printed value, whatever follows it, gives the value and the rest |
| `Json.TextRoundTrip` | components/foundation/util/json_value.h:409-414 | every printed text is JSON that reads back to the value |
| `Json.PrintInjective` | components/foundation/util/json_value.h:409-481 | different values print differently, at any depth |
| `Cookies.ClientTrim` | components/scheduler/scheduler/api_client.cpp:21-33 | the client's trim removes exactly the outer white space |
| `Cookies.ServerTrim` | components/platform/endpoints/csrf_guard.cpp:69-77 | the guard's trim removes exactly outer spaces and tabs |
| `Cookies.StoreKeeps` | components/scheduler/scheduler/api_client.cpp:189-209 | any Set-Cookie value keeps names and values in a form the header can carry |
| `Cookies.StoreAllKeeps` | components/scheduler/scheduler/api_client.cpp:189-234 | so does any sequence of them |
| `Cookies.StoreSpelled` | components/scheduler/scheduler/api_client.cpp:189-209 | name, "=" and value with any white space around both, in front of nothing or a semicolon, store that value under that name and change nothing else |
| `Cookies.StoreNothing` | components/scheduler/scheduler/api_client.cpp:196-207 | a text without "=" before the first semicolon, or with only white space before it, stores nothing |
| `Cookies.SetsOrNothing` | components/scheduler/scheduler/api_client.cpp:189-209 | every text is one of the two |
| `Cookies.LastWins` | components/scheduler/scheduler/api_client.cpp:222-234 | over any sequence of texts the last one that sets a name decides its value, and a name that none sets keeps its own |
| `Cookies.ParseCookieHeader` | components/platform/endpoints/csrf_guard.cpp:82-101 | the guard's scan computes the first value stored under the name |
| `Cookies.HeaderRoundTrip` | components/scheduler/scheduler/api_client.cpp:211-220 | in whatever order the jar is printed, the server reads each stored value and empty for any other name |
| `Cookies.HarvestRoundTrip` | components/scheduler/scheduler/api_client.cpp:189-234 | over any sequence of Set-Cookie texts from an empty jar, the server reads for each name what the last text with that name sets, and empty when none does |
| `ApiClient.BuildCookieHeader` | components/scheduler/scheduler/api_client.cpp:211-220 | prints every cookie of the jar once |
| `ApiClient.Client.constructor` | components/scheduler/scheduler/api_client.cpp:55-66 | a new client has an empty jar, no credentials, and its base address without trailing slashes |
| `ApiClient.Client.HarvestSetCookies` | components/scheduler/scheduler/api_client.cpp:222-234 | the last text of the response that sets a name, setCookies being later than the headers and header names compared without case, decides its value; every other name keeps its own |
| `ApiClient.HarvestMeans` | components/scheduler/scheduler/api_client.cpp:222-234 | the same for the harvested jar as a value |
| `ApiClient.Client.Login` | components/scheduler/scheduler/api_client.cpp:68-115 | remembers the credentials, empties the jar and sends one POST to /api/login whose body reads as JSON with that email and password; on 200 the jar holds what that response sets and nothing else, otherwise nothing; throws exactly when the transport does |
| `ApiClient.Client.ExecuteOnce` | components/scheduler/scheduler/api_client.cpp:141-187 | sends one request with the given verb and body to base address and rooted path; the server reads every cookie of the jar from its Cookie header; the CSRF token is on state-changing calls only; extra headers are on top with their last values; passes on what the transport delivers |
| `ApiClient.Client.CallEndpoint` | components/scheduler/scheduler/api_client.cpp:117-139 | the first request is the call; on a 401 with credentials, and only then, one login follows, and after its 200 the call again with the jar that the login set; the first transport failure ends the call |
| `ApiClient.GuardAcceptsExactly` | components/platform/endpoints/csrf_guard.cpp:107-122 | a state-changing call passes the guard exactly when the path the server finds is a bootstrap path or the jar holds a non-empty csrft, unless extra headers override it |
| `ApiClient.GuardOnPath` | components/scheduler/scheduler/api_client.cpp:182-187 | the same in terms of the job's path, judged with the slash that the client adds |
| `ApiClient.SomethingArrives` | components/scheduler/scheduler/api_client.cpp:182-187 | for every URL some path arrives, so no theorem about what arrives is empty |
| `ApiClient.SlashIsAdded` | components/scheduler/scheduler/api_client.cpp:182-187 | a bootstrap path written without its slash is exempt, though it is not one as written |
| `ApiClient.LoginThenCallPasses` | components/platform/endpoints/csrf_guard.cpp:107-122 | after a login whose answer sets csrft to a non-empty value, judged on the text of its cookies, every state-changing call passes with that value as its token |
| `ApiClient.VerbsJudged` | components/scheduler/scheduler/api_client.cpp:47-51 | four verbs in any spelling carry a token, and GET, HEAD and OPTIONS do not |
| `Schema.ApplyKeeps` | components/data/sql_util/schema/database_info.cpp:126-248 | every successful builder call keeps names distinct, references sound and parents first |
| `Schema.RunKeeps` | components/data/sql_util/schema/database_info.cpp:126-248 | so does every list of successful calls |
| `Schema.NoCycles` | components/data/sql_util/schema/foreign_key_manager.cpp:43-65 | parents first means that no walk along references returns |
| `Schema.BuiltSchemasAreSound` | components/data/sql_util/schema/database_info.cpp:170-218 | over every list of successful calls both ends of each reference exist, each child has one parent and its type (SERIAL to INT, BIGSERIAL to BIGINT), and references are acyclic |
| `Schema.CallAdds` | components/data/sql_util/schema/database_info.cpp:126-248 | a successful call was not repeating a name, and a lookup afterwards finds what it asked for: the empty table, the very column, the reference with its child column, the constraint |
| `Schema.ThrowingCallChangesNothing` | components/data/sql_util/schema/database_info.cpp:188-191 | a throwing call changes nothing, exactly outside one named case |
| `Schema.FailedCallCanMakeCycle` | components/data/sql_util/schema/database_info.cpp:188-191 | in that case a column can end up referring to itself |
| `SchemaObjects.TableInfoImpl.constructor` | components/data/sql_util/schema/table_info.cpp:37-39 | a new table is empty |
| `SchemaObjects.TableInfoImpl.AddColumn` | components/data/sql_util/schema/table_info.cpp:41-50 | throws exactly on a name already present, and then changes nothing |
| `SchemaObjects.ForeignKeyManagerImpl.AddForeignKeyReference` | components/data/sql_util/schema/foreign_key_manager.cpp:43-65 | refines the value-level rule for repeated children |
| `SchemaObjects.DatabaseInfoImpl.AddTable` | components/data/sql_util/schema/database_info.cpp:126-136 | refines the value-level call |
| `SchemaObjects.DatabaseInfoImpl.AddForeignKey` | components/data/sql_util/schema/database_info.cpp:170-218 | refines the value-level call, including what a throw leaves behind |
| `SchemaObjects.DatabaseInfoImpl.Clone` | components/data/sql_util/schema/database_info.cpp:76-82 | the copy has the same schema in objects of its own |
| `SchemaObjects.DatabaseInfo.Clone` | components/data/sql_util/schema/database_info.cpp:253-258 | the new handle has an implementation of its own with the same schema |
| `SchemaObjects.DatabaseInfoImpl.Perform` | components/data/sql_util/schema/database_info.cpp:126-248 | any call refines its value-level counterpart and touches only this handle's objects |
| `SchemaObjects.EditBothAfterClone` | components/data/sql_util/schema/database_info.cpp:253-258 | under any interleaving of calls through the handle and its clone, each ends as if the other had never been called |
| `SchemaObjects.EditThroughAlias` | components/data/sql_util/schema/database_info.cpp:250-258 | calls through a handle and a plain copy of it, in any interleaving, act in order on one schema that both show |
| `Rebuild.AreAllParentsAdded` | components/data/sql_util/database_access/database_metadata.cpp:528-537 | true exactly when every parent has been added |
| `Rebuild.FindReady` | components/data/sql_util/database_access/database_metadata.cpp:561-575 | the scan finds the first ready table or none |
| `Rebuild.PassKeeps` | components/data/sql_util/database_access/database_metadata.cpp:561-575 | a pass keeps: what is left is what has not been added, no repeats, parents before children |
| `Rebuild.StuckForever` | components/data/sql_util/database_access/database_metadata.cpp:561-575 | a pass that finds nothing ready changes nothing, and so does every later one |
| `Rebuild.StuckMeansCycle` | components/data/sql_util/database_access/database_metadata.cpp:561-575 | a stuck loop over closed tables exhibits a cycle |
| `Rebuild.Progress` | components/data/sql_util/database_access/database_metadata.cpp:561-575 | on a closed, acyclic graph the n-th pass leaves n tables fewer |
| `Rebuild.FinishesExactly` | components/data/sql_util/database_access/database_metadata.cpp:541-578 | the loop ends if and only if the graph is closed and acyclic |
| `Catalog.Filter` | components/data/sql_util/database_access/database_metadata.cpp:497-507 | keeps exactly the allowed tables |
| `Catalog.ChildTables` | components/data/sql_util/database_access/database_metadata.cpp:509-526 | lists exactly the tables with parents, each once, with all of its parents |
| `Catalog.MakeForeignKeyTable` | components/data/sql_util/database_access/database_metadata.cpp:299-427 | the loop computes the column-to-parent table, from the first of the links of each parent |
| `Catalog.FirstLinkWins` | components/data/sql_util/database_access/database_metadata.cpp:421-424 | of two parents linked from one column the first listed is kept |
| `Catalog.ParentIsThere` | components/data/sql_util/database_access/database_metadata.cpp:442-465 | a foreign-key column that is kept finds its parent table and column |
| `Catalog.ColumnCall` | components/data/sql_util/database_access/database_metadata.cpp:442-486 | every column call returns and adds the row's column, primary key before unique before plain, with its reference if it is kept |
| `Catalog.AddTableToDatabaseInfo` | components/data/sql_util/database_access/database_metadata.cpp:429-495 | no call throws, and the table ends with the catalog's columns (each with its row's name, type, primary key and unique flags unless it refers to a parent) and unique constraints and the references that are kept |
| `Catalog.DatabaseInfoFromDatabase` | components/data/sql_util/database_access/database_metadata.cpp:541-578 | on a graph for which the loop ends: every allowed table exactly once, after all of its parents, in a sound schema; every reference is a foreign key of the catalog, and all the catalog's foreign keys are there exactly when no table has two to one parent or two on one column; every table has the catalog's columns in order, a column that refers to no parent with its row's name and type, primary key exactly when the row is, unique exactly when the row is unique and no primary key, not nullable and without default |
| `Catalog.TablesAsListed` | components/data/sql_util/database_access/database_metadata.cpp:429-495 | field by field, what the columns of the rebuilt tables hold in terms of the catalog's rows and the schema's own references |
| `Catalog.RefsAreKept` | components/data/sql_util/database_access/database_metadata.cpp:429-495 | the references of the rebuilt schema are exactly the kept foreign keys |
| `Catalog.TableKeepsExactly` | components/data/sql_util/database_access/database_metadata.cpp:299-314 | a table keeps all of its foreign keys if and only if it has one link to each parent and one parent for each linked column |
| `Catalog.KeysKeptExactly` | components/data/sql_util/database_access/database_metadata.cpp:541-578 | the same for the whole schema |
| `Catalog.SecondKeyIsLost` | components/platform/db_schema/permission_implications.cpp:7-28 | any table shaped like permission_implications has two foreign keys to one parent in the catalog; the second becomes a plain column |
| `Fonts.PutKeeps` | components/platform/endpoints/manage_site_fonts.cpp:370-443 | listed rows keep id, active flag and faces; new rows are active; exactly the faces of listed families remain; names are distinct afterwards exactly when no listed name was doubled before |
| `Fonts.PutDescribes` | components/platform/endpoints/manage_site_fonts.cpp:370-443 | the result is exactly the payload, field by field: each family has a row with its name, fallback, kind, specification (only for downloaded ones) and ordinal 10, 20, …, and the source of its key exactly when it is downloaded and the key is listed; every row is one of these; and the sources are the payload's |
| `Fonts.DescribedIsSettled` | components/platform/endpoints/manage_site_fonts.cpp:370-443 | an inventory that already is the payload is left exactly as it is |
| `Fonts.PutTwice` | components/platform/endpoints/manage_site_fonts.cpp:370-443 | repeating a PUT changes nothing |
| `Fonts.NoDanglingSource` | components/platform/endpoints/manage_site_fonts.cpp:394-421 | every source id left is that of an existing source |
| `FontChoices.PutByOutcome` | components/platform/endpoints/manage_site_fonts.cpp:370-443 | whichever rows the lookups find, the rows found and the new rows hold a family of the payload field by field, each family has a row, the other listed rows are untouched, and nothing unlisted is left |
| `FontChoices.DanglesExactly` | components/platform/endpoints/manage_site_fonts.cpp:394-443 | whichever rows are found no source id is left dangling, if and only if each row with a doubled listed name refers to no source or to one that stays |
| `FontChoices.RepeatsExactly` | components/platform/endpoints/manage_site_fonts.cpp:370-443 | whichever rows are found a repeat changes nothing, if and only if each row with a doubled listed name already held what the payload wants |
| `FontStore.SiteFonts.UpdateFont` | components/platform/sql_util/table_helpers/site_fonts.cpp:148-178 | the two statements together set all values, a missing source included |
| `FontStore.SiteFonts.PutSourceRows` | components/platform/endpoints/manage_site_fonts.cpp:370-392 | the source loop refines the fold and returns each key's id |
| `FontStore.SiteFonts.PutFontRows` | components/platform/endpoints/manage_site_fonts.cpp:394-421 | the family loop, with ordinals 10, 20, …, leaves every row under its id, is the PUT by the rows that were found, and refines the fold when no listed name is doubled |
| `FontStore.SiteFonts.DeleteUnlistedFonts` | components/platform/endpoints/manage_site_fonts.cpp:423-436 | drops exactly the unlisted families, each after its faces |
| `FontStore.SiteFonts.DeleteUnlistedSources` | components/platform/endpoints/manage_site_fonts.cpp:437-443 | drops exactly the unlisted sources |
| `FontStore.ValidateSources` | components/platform/endpoints/manage_site_fonts.cpp:279-311 | accepts exactly distinct, well-formed sources |
| `FontStore.ValidateFamilies` | components/platform/endpoints/manage_site_fonts.cpp:313-357 | accepts exactly distinct, well-formed families |
| `FontStore.PutManageSiteFonts` | components/platform/endpoints/manage_site_fonts.cpp:249-453 | a refused PUT writes nothing; an accepted one always keeps ids, flags and faces and is the PUT by the rows the lookups found, each of which holds its family field by field, and leaves exactly the payload when no listed name is doubled |
| `Targets.BuildTargetKey` | components/scheduler/scheduler/job_scheduler.cpp:41-60 | the appending loop computes the key |
| `Targets.TargetKeyInjective` | components/scheduler/scheduler/job_scheduler.cpp:41-60 | targets without newlines and without ": " in header names share a key only when they are equal |
| `Targets.KeyIsOwnExactly` | components/scheduler/scheduler/job_scheduler.cpp:41-60 | no other possible target has the key, if and only if there are no headers and no newlines |
| `Targets.SameKeyExactly` | components/scheduler/scheduler/job_scheduler.cpp:41-60 | targets without newlines share a key if and only if their texts agree and each pair of headers is equal or one name starts with the other followed by ": " and the lines agree |
| `Targets.OwnAmongLikeExactly` | components/scheduler/scheduler/job_scheduler.cpp:41-60 | among targets without newlines the key is a target's own if and only if no header name or value holds ": " |
| `Targets.NewlineCollides` | components/scheduler/scheduler/job_scheduler.cpp:41-60 | two different targets with one key |
| `JobScheduler.JobScheduler.RegisterJob` | components/scheduler/scheduler/job_scheduler.cpp:23-26 | adds an enabled job, drops a disabled one, keeps every session owned |
| `JobScheduler.JobScheduler.SetJobs` | components/scheduler/scheduler/job_scheduler.cpp:28-39 | the jobs are the enabled ones in order, and no session is left |
| `JobScheduler.JobScheduler.EnsureClient` | components/scheduler/scheduler/job_scheduler.cpp:62-75 | finds or makes the target's client; every cached client belongs to a current job's target |
| `JobScheduler.JobScheduler.AuthenticateTargets` | components/scheduler/scheduler/job_scheduler.cpp:88-105 | refines one login per distinct target, up to the first whose transport throws; throws exactly when one does, and otherwise is true exactly when every answer is 200 |
| `JobScheduler.OneLoginPerTarget` | components/scheduler/scheduler/job_scheduler.cpp:88-105 | each target sends exactly one more request, the login of its first job, and no other session changes |
| `JobScheduler.LoginsSent` | components/scheduler/scheduler/job_scheduler.cpp:88-105 | that request is a login with the first job's credentials, to its server and with its headers when the target had no session before |
| `JobScheduler.EnabledExactly` | components/scheduler/scheduler/job_scheduler.cpp:23-39 | the jobs kept are exactly those with a positive interval |
| `JobScheduler.OwnSession` | components/scheduler/scheduler/job_scheduler.cpp:62-75 | on clean targets a job's key finds a client made for that very target |
| `JobScheduler.JobScheduler.RunJobOnce` | components/scheduler/scheduler/job_scheduler.cpp:107-159 | runs the first job of the name on its target's session only: the first request has the job's verb, path, headers and no body, and on a 401 with credentials exactly one login and after its 200 one more such request follow; on clean targets the server is the job's own; a transport failure is caught and reported, and the result is the status of the last answer, a success exactly on 2xx |
| `JobScheduler.TimerRunsItsJob` | components/scheduler/scheduler/job_scheduler.cpp:107-112 | running a job by name finds it exactly when no earlier job has the name |
| `JobScheduler.JobScheduler.Start` | components/scheduler/scheduler/job_scheduler.cpp:161-170 | one timer per job in order, armed with that job's interval, unless already started |
| `JobScheduler.JobScheduler.Stop` | components/scheduler/scheduler/job_scheduler.cpp:172-185 | no timer is left |
| `JobScheduler.Scheduler.constructor` | components/scheduler/scheduler/scheduler.cpp:13-24 | starts with no jobs registered and not initialized |
| `JobScheduler.Scheduler.Initialize` | components/scheduler/scheduler/scheduler.cpp:29-56 | registers the enabled jobs in order and logs in once per target; without a provider the scheduler's own jobs are moved out, their texts left empty; a throwing provider changes nothing; a throwing login leaves the jobs registered and the targets after it without a session |
| `JobScheduler.SecondInitialize` | components/scheduler/scheduler/scheduler.cpp:37-39 | what a second call without a provider registers: emptied jobs, one for each job that was enabled |
| `JobScheduler.Scheduler.Refresh` | components/scheduler/scheduler/scheduler.cpp:72-109 | refines the refresh function: keep, reload, or throw between the swap and the start |
| `JobScheduler.RefreshEndsExactly` | components/scheduler/scheduler/scheduler.cpp:72-109 | a refresh ends with the provider's enabled jobs in order, one timer each, and one login per target, if and only if the list changed and no target's login throws; without a change nothing changes |
| `JobScheduler.ThrowingRefreshLeaves` | components/scheduler/scheduler/scheduler.cpp:93-108 | a refresh that throws leaves the list and jobs swapped, the engine stopped with no timer, and one login for each target up to the one that threw |
| `JobScheduler.RepeatsChangeNothing` | components/scheduler/scheduler/scheduler.cpp:86-88 | repeating a refresh with the same list, any number of times and whatever the transport does by then, changes nothing |
| `JobScheduler.RunningExactly` | components/scheduler/scheduler/scheduler.cpp:72-109 | over every sequence of refreshes the jobs run exactly when the last refresh that changed the list did not throw, or none did and they ran before |
| `JobScheduler.UnreachableTargetStops` | components/scheduler/scheduler/scheduler.cpp:93-108 | one unreachable target stops a running scheduler, and the same list does not start it again |
| `Timers.NoTimerLost` | components/scheduler/scheduler/job_scheduler.cpp:161-209 | whatever the event loop does, short of a fault, each timer has a wait that will fire, none is armed twice, none is armed while stopped |
| `Timers.QuietRunsAreFresh` | components/scheduler/scheduler/job_scheduler.cpp:161-209 | with no expired wait undelivered at any stop, callbacks stay in range, all waits are of the current job set, exactly one per timer |
| `Timers.FaultExactly` | components/scheduler/scheduler/job_scheduler.cpp:187-209 | a callback can read past the job list if and only if an expired wait is out of range |
| `Timers.ReloadFaultsExactly` | components/scheduler/scheduler/scheduler.cpp:93-107 | a reload makes that possible if and only if an expired wait has an index beyond the new list |
| `Timers.ReloadCanFault` | components/scheduler/scheduler/scheduler.cpp:93-107 | such a reload is reachable |
| `Templates.ReplaceInPlace` | components/foundation/util/types.cpp:282-287 | the in-place loop ends and replaces every occurrence, left to right |
| `Templates.FormatString` | components/foundation/util/types.cpp:277-290 | key by key over the row |
| `Templates.ReplacePieces` | components/foundation/util/types.cpp:282-287 | replacing one key replaces exactly its placeholders |
| `Templates.FormatIsSubstitution` | components/foundation/util/types.cpp:277-290 | one simultaneous substitution, when braces do not nest, keys hold no brace and no value can start the placeholder of a later key |
| `Templates.FaithfulExactly` | components/foundation/util/types.cpp:277-290 | every row whose values cannot start a later placeholder gives the substitution, if and only if no placeholder of the template holds an opening brace |
| `Templates.SubstitutionExactly` | components/foundation/util/types.cpp:277-290 | for two keys in order, replacement is the substitution on every template if and only if the first value cannot start the second placeholder or the second value is that placeholder |
| `Templates.ParseRenders` | components/data/sql_util/database_access/database_crud_helpers.cpp:825-838 | the pieces of a template put together are the template |
| `Templates.ParseTemplateColumns` | components/data/sql_util/database_access/database_crud_helpers.cpp:825-838 | lists exactly the placeholders, in order |
| `Templates.OnlyListedColumnsMatter` | components/data/sql_util/database_access/database_crud_helpers.cpp:840-857 | rows that agree on the listed columns give the same text |
| `Templates.BracedValueIsReplacedAgain` | components/foundation/util/types.cpp:277-290 | a value that holds a placeholder is substituted into: "c" instead of "{b}" |
| `Templates.NestedBracesAreReplacedAgain` | components/foundation/util/types.cpp:277-290 | nested braces are substituted twice: "c" instead of the template itself |
| `SqlNames.IsSimpleName` | components/data/sql_util/database_access/database_helper.cpp:202-216 | true exactly for a letter or underscore followed by letters, digits and underscores |
| `SqlNames.EscSqlName` | components/data/sql_util/database_access/database_helper.cpp:218-234 | the lower-cased name, plain or quoted |
| `SqlNames.ReadEsc` | components/data/sql_util/database_access/database_helper.cpp:218-234 | an escaped name, whatever it holds, reads back as its lower case in front of anything that ends a name |
| `SqlUpdate.ExecParamsHelper.constructor` | components/data/sql_util/database_access/transaction.h:5-25 | no parameter is bound |
| `SqlUpdate.ExecParamsHelper.AddParam` | components/data/sql_util/database_access/transaction.h:8-11 | the placeholder returned is the position of the value bound |
| `SqlUpdate.GenerateInsertParams` | components/data/sql_util/database_access/database_crud_helpers.cpp:12-26 | prints the values and binds exactly the ones that are not keywords, in order |
| `SqlUpdate.GenerateInsertColumnNames` | components/data/sql_util/database_access/database_crud_helpers.cpp:28-41 | prints the escaped keys in order |
| `SqlUpdate.CheckKeysInTable` | components/data/sql_util/database_access/database_crud_helpers.cpp:54-66 | throws exactly on an unknown key |
| `SqlUpdate.GenerateUpdateRowSql` | components/data/sql_util/database_access/database_crud_helpers.cpp:328-369 | throws exactly on an unknown key or lookup column, binding nothing; otherwise prints the statement and binds the lookup value first, after whatever was bound before |
| `SqlUpdate.PlaceholdersCountUp` | components/data/sql_util/database_access/database_crud_helpers.cpp:12-26 | placeholders count up by one per bound value; inlined keywords shift nothing |
| `SqlUpdate.ValueIsMeant` | components/data/sql_util/database_access/database_crud_helpers.cpp:12-41 | the i-th value evaluates to what the i-th pair of the table means |
| `SqlUpdate.StatementMeans` | components/data/sql_util/database_access/database_crud_helpers.cpp:328-369 | on a matching row exactly the given columns get the given values; any other row is unchanged |
| `SqlUpdate.ReadPrinted` | components/data/sql_util/database_access/database_crud_helpers.cpp:355-366 | a reader of the printed text gives back the statement |
| `SqlUpdate.UpdateTextMeans` | components/data/sql_util/database_access/database_crud_helpers.cpp:328-369 | the text, run with the bound parameters on any rows, is refused exactly when there is nothing to set or two keys are equal without case, and otherwise sets exactly the given columns on exactly the matching rows, by lower-case names |
| `SqlUpdate.NamesAskedExactly` | components/data/sql_util/database_access/database_helper.cpp:218-234 | the printed text reads if and only if there is something to set, and the statement found in it names the table and columns asked for if and only if they are in lower case |
| `SqlUpdate.WhereClauseFromKeyValueTable` | components/data/sql_util/database_access/database_crud_helpers.cpp:103-121 | prints one condition per pair and binds its value |
| `SqlUpdate.WhereMeans` | components/data/sql_util/database_access/database_crud_helpers.cpp:103-121 | the clause reads back as those conditions and is true of a row exactly when every pair matches, by lower-case names; an empty lookup gives text that is no condition |

## Left out

- Crow routing, request parsing, response building and the other endpoints: plumbing over parts that are modelled or left out here.
- libpqxx, libpq, libcurl and Boost.Asio internals: only the events they deliver appear (BEGIN fails, connection closed, response or transport failure, timer expired or aborted). What libcurl makes of a URL with a fragment or dot segments is left to the transport.
- Database errors in the middle of a font PUT or of a rebuild: the surrounding transaction is then not committed.
- Wait-time metrics and the soft-ceiling warning of the pool: counters and a log line that no decision reads.
- Doubles in JSON, and reading JSON: the reader in `Json.dfy` is a reference for the printer, not a model of the repository's parser.
- Signed 64-bit overflow of microsecond timestamps: timestamps are unbounded integers.
- Zones outside the table, and the Windows path for the TZ variable: their behaviour depends on the host.
- Mktime: one behaviour that the relation allows; the theorems are about every answer the relation allows.
- UID builders, recurrence rules and the clock behind DTSTAMP in the iCalendar generator: pure string expressions and parameters.
- Throttled logging in the CSRF guard, and cookie attributes beyond name and value: neither affects what is accepted.
- DatabaseInfoFromDatabase: requires that the loop ends, which `Rebuild.FinishesExactly` shows to be the exact condition; the catalog's answers are taken as consistent, column types as already translated, and foreign keys as single columns.
- The lookups of the foreign-key manager that only read, and the individual table definitions: finite lists and scans.
- The validators for font addresses, names and specifications are parameters; uploading and deleting single faces is not modelled.
- NoTimerLost: in the timer model a job set is replaced only while stopped, as `job_scheduler.h` demands of callers.
- The signal handlers, the refresh timer and durations of job runs: thin wrappers.
- FormatIsSubstitution: its condition on the values is stated one way for three keys and more, where replacements in a value can cancel out; `Templates.SubstitutionExactly` has both directions for two, and `Templates.FaithfulExactly` both for the template.
- UpdateTextMeans: keywords with spaces or commas are outside the reader, and reserved words as names are not told apart.
- Initialize: a moved-from text or header list is taken as empty, which the language leaves open.
- `ResolveDisplayValues`, paging, search and the other statement builders: they would add easy members.

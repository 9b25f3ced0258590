# Bus tracker: counts, graph, cache pre-warm, route listing and trip details

A Dafny model of the core of the Ottawa bus tracker. The tracker reconciles
OC Transpo's published schedule with live vehicle positions. The model
covers four pieces:

- **Bus counts** (`bus_count.dfy`). At one instant the tracker computes
  seven counts over three relations:
  - the scheduled trip rows of the blocks;
  - the vehicle observations;
  - the cancellations.

  The counts are active buses, buses on routes, trips scheduled, trips not
  running, trips that never ran, trips canceled and trips still running.
  Each SQL query is a filter over a sequence of rows. `count(*)` is
  `Rows.CountWhere`, and `count(distinct id)` is the size of a set of ids.
  - Instants are integer milliseconds.
  - Service times are integer seconds since the start of the service day.
    They do not wrap at midnight, so 25:30:00 is 91800.
  - The schedule helpers are abstract total functions, gathered in a
    `Calendar`: the day of an instant, the timetable version, the active
    service ids, the service time of an instant, the padded service-day
    boundaries and the date string.

  The daily graph samples the counts from 03:00:00 every fifteen minutes
  while the time is below 27:00:00. Each sample is queued in a `while`
  loop, and the queue is then awaited in order in a `for` loop.
- **Cache pre-warm** (`cache_prewarm.dfy`). The job walks the days of the
  vehicle history in order. Each day is skipped, found already cached, or
  gets one internal request for its on-time-performance page. That request
  either succeeds (the day is warmed) or fails (status 400 or above).
  - The job is a method over the days with the three counters the source
    keeps, plus the list of requests it sends.
  - It is proved against `OutcomeCount` and `Requests`, functions of the
    input days.
  - Three collaborators are oracles on a day: whether it is the current
    service day, whether its daily statistics are cached, and the status
    of its request.
  - `formatDate` is modelled on a local calendar date:
    `String(year)-MM-DD`, with `padStart` to width two.
- **Route listing** (`list_routes.dfy`). Each grouped row (route, trip
  count) is mapped to an entry tagged `frequent` or `non-frequent` by
  membership in the fixed frequent-network set. The mapping gives `null`
  for a school route, one whose `parseInt(id, 10)` is in 600..699, when
  those are excluded; the nulls are then filtered out. `parseInt` is
  modelled as JavaScript defines it: leading white space, an optional sign,
  the longest digit run, and `NaN` (here `None`) when no digit follows.
- **Trip details** (`route_details.dfy`). Each joined row becomes one
  record.
  - The observed start is reported when it is truthy.
  - The observed end is reported when it is truthy and either the bus has
    no next stop or the current service time is more than 30 minutes past
    it.
  - The current service time is an integer input. `secondsOf` reads a time
    string as seconds, so `timeStringDiff(now, end)` is
    `now - secondsOf(end)`.

`rows.dfy` holds the counting and filtering shared by these modules.
`decimal.dfy` holds the decimal text of integers (`String(n)`) and its
reading back. `wrappers.dfy` holds `Option`, which stands for SQL `NULL`
and JavaScript `null`/`NaN`.

Three behaviours of the code are modelled as written, and a reader may not
expect them:

- **Graph end bound.** `getGraphData` samples from 03:00:00 while the
  time is before 27:00:00 (`src/endpoints/busCount.ts:110-126`), whatever
  the current time. For the current day it also samples times still to
  come. The model therefore always returns 96 samples.
- **Yesterday rule.** The comment at `src/utils/cachePrewarm.ts:55` says
  the job skips yesterday. The code compares a day's instant, to the
  millisecond, with the clock minus one day (`src/utils/cachePrewarm.ts:38-39,56`).
  The model keeps that exact comparison:
  - `CachePrewarm.YesterdayIsExact` shows that a day one millisecond away
    is not skipped by this rule.
  - `CachePrewarm.MidnightNeverYesterday` shows that a day falling on a
    midnight escapes this rule whenever the clock is not itself on a
    midnight.
- **Missing aggregates.** Each count is read as `parseInt` of the first
  row's `c` (`src/endpoints/busCount.ts:96-104`). With no row this is
  `parseInt(undefined)`, which is `NaN`. A `count` query always returns
  one row, so the model assumes every count query returns its row.

## Model

| member | source | states |
|---|---|---|
| BusCount.GetBusCounts | src/endpoints/busCount.ts:36-104 | The seven counts at an instant. Buses on routes are at most active buses. Trips not running and trips canceled are each at most trips scheduled. No row is both scheduled and still running, so those two together are at most all rows. Trips that never ran are at most trips not running when the padded service day contains the ±2 min window |
| BusCount.OnRouteWithinActive | src/endpoints/busCount.ts:45-54 | Every bus counted on a route is an active bus (set inclusion of the distinct ids), so `busesOnRoutes <= activeBuses` |
| BusCount.NotRunningWithinScheduled | src/endpoints/busCount.ts:56-66 | `start < t` implies `start <= t`, so `tripsNotRunning <= tripsScheduled` |
| BusCount.CanceledWithinScheduled | src/endpoints/busCount.ts:56-86 | `tripsCanceled <= tripsScheduled` |
| BusCount.ScheduledDisjointFromStillRunning | src/endpoints/busCount.ts:56-94 | No row is both scheduled (`end > t`) and still running (`end < t`). So the rows that are either number exactly trips scheduled + trips still running, which is at most the number of rows |
| BusCount.NeverRanIsNotRunning | src/endpoints/busCount.ts:61-81 | A trip with no observation in the padded service day has none in the narrow window either, when the day contains the window |
| BusCount.NeverRanWithinNotRunning | src/endpoints/busCount.ts:61-81 | `tripsNeverRan <= tripsNotRunning` when the padded service day contains the narrow window |
| BusCount.OutsideWindowAddsNoBus | src/endpoints/busCount.ts:40-54 | An observation outside the open window changes neither set of bus ids |
| BusCount.OutsideWindowKeepsTrips | src/endpoints/busCount.ts:61-94 | An observation outside the open window changes no trip's not-running or still-running status |
| BusCount.WindowIsOpen | src/endpoints/busCount.ts:40-94 | An observation at exactly t − 2 min or t + 2 min changes none of the four counts that use the window |
| BusCount.TripStartingNow | src/endpoints/busCount.ts:56-86 | A trip starting exactly at t adds one to trips scheduled, and nothing to not running, never ran or canceled |
| BusCount.TripEndingNow | src/endpoints/busCount.ts:56-94 | A trip ending exactly at t adds nothing to trips scheduled or still running |
| BusCount.ExcludedRoutesIgnored | src/endpoints/busCount.ts:48-94 | Dropping the rows of routes 1-350, 2-354 and 4-354 leaves all seven counts unchanged |
| BusCount.QueueSamples | src/endpoints/busCount.ts:113-126 | The sampling loop queues exactly 96 samples. Sample i is at 03:00:00 + 900 s · i and holds the counts at its own instant |
| BusCount.AwaitSamples | src/endpoints/busCount.ts:128-134 | Awaiting the queue in order yields the queued samples, same order, same times |
| BusCount.GetGraphData | src/endpoints/busCount.ts:107-137 | 96 entries at 03:00:00 + 900 s · i, strictly ascending, all below 27:00:00, the last at 26:45:00. Each entry holds `GetBusCounts` at the instant of its time |
| Decimal.NatToString | src/utils/cachePrewarm.ts:7-9 | `String(n)` of a natural number: at least one digit, no leading zero, one digit exactly below 10, two digits from 10 to 99 |
| Decimal.IntToString | src/utils/cachePrewarm.ts:7-10 | `String(n)`: the digits of \|n\|, which read back as \|n\|, after a minus sign exactly when n is negative |
| Decimal.NatToStringRoundTrip | src/utils/cachePrewarm.ts:7-9 | Reading back the digits written for n gives n |
| Decimal.NatToStringInjective | src/utils/cachePrewarm.ts:7-9 | Distinct numbers are written differently |
| CachePrewarm.PadStart | src/utils/cachePrewarm.ts:8-9 | `padStart(width, fill)`: the result has length max(\|s\|, width), ends with s and is fill before it |
| CachePrewarm.TwoDigitTextValue | src/utils/cachePrewarm.ts:8-9 | The two-digit text of a number below 100 reads back as that number |
| CachePrewarm.PadTwoDigits | src/utils/cachePrewarm.ts:8-9 | Padding the text of a number below 100 to width two gives its tens digit followed by its units digit |
| CachePrewarm.FormatDate | src/utils/cachePrewarm.ts:6-11 | `formatDate`: `String(year)`, a dash, `String(month index + 1)` padded to two, a dash, `String(day)` padded to two; the result starts with the year's text and a dash and has at least six more characters. Its exact layout is `FormatDateLayout` |
| CachePrewarm.FormatDateLayout | src/utils/cachePrewarm.ts:6-11 | For month index 0..11 and day 1..31 the date is the year, a dash, the two digits of month index + 1, a dash, the two digits of the day |
| CachePrewarm.RequestUrlLayout | src/utils/cachePrewarm.ts:73-74 | For a day whose local month index is 0..11 and day 1..31, the internal request is `/api/onTimePerformance?date=` followed by the year, a dash, two month digits, a dash and two day digits |
| CachePrewarm.MaxAgeDays | src/utils/cachePrewarm.ts:37 | The retention window is the configured value unless it is missing or 0, in which case it is 90 |
| CachePrewarm.RequestUrl | src/utils/cachePrewarm.ts:73-74 | The URL of the internal request for one day: the on-time-performance path with `date=` and the formatted local date; its layout is `RequestUrlLayout` |
| CachePrewarm.WarmOnTimePerformanceCache | src/utils/cachePrewarm.ts:37-83 | Each counter equals the number of days with that outcome. The requests are those of `Requests`, one per requested day in day order. warmed + alreadyCached + skipped + failed = number of days |
| CachePrewarm.VisitDays | src/utils/cachePrewarm.ts:45-83 | The loop over the days. Each counter ends equal to the number of days with that outcome, and the requests are those of `Requests` |
| CachePrewarm.VisitDay | src/utils/cachePrewarm.ts:50-82 | One pass of the loop body. It adds one to the counter of the day's outcome and nothing to the others. It sends the day's request exactly when the day is neither skipped nor cached |
| CachePrewarm.NextDay | src/utils/cachePrewarm.ts:49-83 | Counts and requests over one more day grow by that day's outcome and request |
| CachePrewarm.OutcomesPartition | src/utils/cachePrewarm.ts:45-83 | Every day has exactly one outcome: the four outcome counts add up to the number of days |
| CachePrewarm.NoFailureWithoutErrorStatus | src/utils/cachePrewarm.ts:75-82 | When no status is 400 or above, no day fails and warmed + alreadyCached + skipped equals the number of days |
| CachePrewarm.RequestsAreWarmedOrFailed | src/utils/cachePrewarm.ts:66-82 | One request per warmed or failed day, and none for skipped or cached days |
| CachePrewarm.RequestsInDayOrder | src/utils/cachePrewarm.ts:49-74 | The requests for a + b are those for a followed by those for b |
| CachePrewarm.RequestsOnlyForSettledDays | src/utils/cachePrewarm.ts:49-74 | Every request is for an input day that is not current, not exactly yesterday, not before the cutoff and not cached |
| CachePrewarm.EverySettledDayRequested | src/utils/cachePrewarm.ts:49-74 | Every input day that is not current, not exactly yesterday, not before the cutoff and not cached gets its request |
| CachePrewarm.YesterdayIsExact | src/utils/cachePrewarm.ts:38-59 | The day at exactly now − 1 day is skipped. A settled, uncached day one millisecond later is requested |
| CachePrewarm.MidnightNeverYesterday | src/utils/cachePrewarm.ts:14-64 | A day on a midnight is skipped only as current or before the cutoff whenever the clock is not on a midnight |
| ListRoutes.TrimStart | src/endpoints/listRoutes.ts:67 | `parseInt` first drops the leading white space, and only white space |
| ListRoutes.DigitRun | src/endpoints/listRoutes.ts:67 | The longest prefix of decimal digits |
| ListRoutes.AfterSign | src/endpoints/listRoutes.ts:67 | One leading `+` or `-` is dropped, and nothing else |
| ListRoutes.ReadSignedInteger | src/endpoints/listRoutes.ts:67 | After the white space, `parseInt` gives NaN exactly when no digit follows the optional sign |
| ListRoutes.ParseInt10 | src/endpoints/listRoutes.ts:67-68 | `parseInt(s, 10)` is NaN exactly when no digit follows the white space and the sign |
| ListRoutes.IsSchoolRoute | src/endpoints/listRoutes.ts:67-68 | The id parses to a number from 600 to 699; such an id never starts with a minus sign after its white space |
| ListRoutes.ParseDigits | src/endpoints/listRoutes.ts:67 | A run of digits with no digit after it reads as the value of those digits |
| ListRoutes.LeadingNumber | src/endpoints/listRoutes.ts:67 | `parseInt` of the decimal text of n, followed by anything that is not a digit, is n |
| ListRoutes.TrimLeadingSpace | src/endpoints/listRoutes.ts:67 | All the white space in front of a text that does not start with white space is dropped |
| ListRoutes.ReadSignedDigits | src/endpoints/listRoutes.ts:67 | An optional sign, a run of digits and no further digit read as the value of the digits, negated after a minus sign |
| ListRoutes.ParseSignedDigits | src/endpoints/listRoutes.ts:67 | `parseInt` of white space, an optional sign, a run of digits and a non-digit suffix is the value of the digits, negated after a minus sign |
| ListRoutes.SchoolRouteByNumber | src/endpoints/listRoutes.ts:66-70 | An id made of white space, an optional sign, n's digits and a non-digit suffix (" 601", "+650A", "-601") is a school route exactly when there is no minus sign and 600 <= n < 700 |
| ListRoutes.Summary | src/endpoints/listRoutes.ts:72-77 | The id and trip count are copied. The frequency is "frequent" exactly when the id is in the 26-route set, and "non-frequent" otherwise |
| ListRoutes.RouteEntry | src/endpoints/listRoutes.ts:64-78 | The callback gives null exactly for a school route when school routes are excluded, and the row's summary otherwise |
| ListRoutes.Entries | src/endpoints/listRoutes.ts:63-78 | `.map`: one entry per row, in order |
| ListRoutes.Present | src/endpoints/listRoutes.ts:79 | `.filter(x => x !== null)`: every kept value was present in the input, and every present value is kept |
| ListRoutes.ListRoutes | src/endpoints/listRoutes.ts:63-79 | The listing, `.map` then `.filter`: at most one entry per row. Which rows and in what order is `ListRoutesIsFilterThenMap` |
| ListRoutes.ListedEntriesSummariseKeptRows | src/endpoints/listRoutes.ts:63-79 | Every listed entry is the summary of some input row, never of a school route when school routes are excluded |
| ListRoutes.ListRoutesIsFilterThenMap | src/endpoints/listRoutes.ts:63-79 | Map-then-drop-nulls equals filter-the-rows-then-summarise. The answer is the kept rows in their input order |
| ListRoutes.NothingDroppedWithoutExclusion | src/endpoints/listRoutes.ts:61-79 | Without exclusion the answer has one entry per row, and entry i summarises row i |
| ListRoutes.ListedCount | src/endpoints/listRoutes.ts:61-79 | The answer has as many entries as there are kept rows |
| ListRoutes.ListedIffNotSchool | src/endpoints/listRoutes.ts:66-70 | With exclusion on, a row's summary is listed exactly when its route is not a school route |
| ListRoutes.NaNNeverDropped | src/endpoints/listRoutes.ts:68 | A row whose id parses to NaN is always listed |
| RouteDetails.EndReported | src/endpoints/routeDetails.ts:81-82 | The last observation stands as the end when it is truthy and either the bus has no next stop or it is more than 30 minutes old; with no next stop the time plays no part |
| RouteDetails.ToTripDetails | src/endpoints/routeDetails.ts:74-87 | Trip id, head sign, direction, scheduled times, delay, cancellation, bus and block are copied. The start is present exactly when truthy, and then copied. The end is present exactly when the end rule holds, and then copied |
| RouteDetails.GetRouteData | src/endpoints/routeDetails.ts:74-87 | One record per row, in row order |
| RouteDetails.EndWithoutNextStop | src/endpoints/routeDetails.ts:81-82 | With an end and no next stop, the reported end is the row's end at any time |
| RouteDetails.EndWithNextStop | src/endpoints/routeDetails.ts:81-82 | With an end and a next stop, the end is reported exactly when now is more than 1800 s past it, so not at exactly 1800 s |
| RouteDetails.EndReportedStaysReported | src/endpoints/routeDetails.ts:81-82 | An end reported at some time is reported, unchanged, at every later time |
| RouteDetails.OnlyTheEndDependsOnTime | src/endpoints/routeDetails.ts:74-87 | The current time affects no field but the end |

## Left out

- JavaScript `Date`, time zones and daylight saving.
  - Instants are integer milliseconds.
  - A sample's instant is the day start plus the service time in seconds
    (`setSeconds` overflow, DST gaps and folds are not modelled).
  - `new Date(string)` parsing and `toLocaleDateString` are behind the
    abstract calendar.
- The schedule, cache and configuration helpers: `schedule.ts`,
  `cacheManager.ts` and `config.ts` are not part of this model.
  - Their functions are abstract inputs: `Calendar`, `Environment`,
    `secondsOf`, the configured retention window and the clock.
  - In the graph, `timeStringDiff` and `addToTimeString` are subtraction and
    addition on seconds.
- The SQL engine, the database and Fastify routing and schemas. Query
  results are given sequences of rows.
  - The joins, `ORDER BY` and the grouped query of the route listing and
    trip details are not modelled. Their result is the input.
  - The error raised when the scalar sub-select of `busesOnRoutes` returns
    more than one row is not modelled: the sub-select is an existence
    test.
  - `NULL` semantics beyond nullable columns are not modelled.
- `parseInt` of a missing aggregate (`NaN`) in the bus counts: every count
  query is assumed to return its row.
- Promise concurrency in the graph and in the pre-warm job. Both are
  modelled sequentially; only the assembly order is observable.
- Console logging (the pre-warm progress and warning lines).
- The query-string coercion of `excludeSchoolRoutes` (`!!` of a boolean or
  a string): the model takes the resulting boolean.
- ListRoutes.ParseInt10: precision is not modelled. JavaScript numbers lose
  precision above 2^53; the model's integers are exact. This does not
  affect the 600..699 test.
- Floating-point `trip_count`, `delay_min` and `route_direction`: they are
  integers here.
- CachePrewarm.WarmOnTimePerformanceCache: `getAllServiceDays` is not
  modelled. Its days are the input, in the order the query returns them.
  - The input is required to be strictly ascending, as `SELECT DISTINCT
    ... ORDER BY date` returns it (`src/utils/cachePrewarm.ts:15-19`).
  - The cache oracle is fixed for the whole run. A successful request fills
    the cache, but only for its own day, and no day comes twice.
- Rejected promises. Only the status >= 400 path of the pre-warm job is
  modelled (`src/utils/cachePrewarm.ts:75-77`); every collaborator answers.
  - In the pre-warm job, a rejection from `getCachedDailyStats` or
    `server.inject` (`src/utils/cachePrewarm.ts:66,74`) is not caught. It
    ends the whole job: later days are not visited and the final log line
    is not written. `CachePrewarm.EverySettledDayRequested` holds only when
    no such rejection happens.
  - In the graph, a failing count query rejects `getBusCounts`, and the
    first rejected sample awaited (`src/endpoints/busCount.ts:129-131`)
    rejects `getGraphData`. The model always returns all 96 samples.
- `src/utils/fetchGtfs.ts`, `src/index.ts`, `src/endpoints/listBlocks.ts`
  and `src/endpoints/listVehicles.ts` are not part of this model. They are
  I/O, timers and single projections.

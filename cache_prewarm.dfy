/**
 * The cache pre-warm job: it walks every day seen in the vehicle history
 * and, for each settled day that is not cached yet, requests the
 * on-time-performance endpoint once so that the result gets cached.
 *
 * Days and the clock are integer milliseconds. Whether a day is the
 * current service day, whether its daily statistics are cached, the
 * status the internal request answers with and the local calendar date
 * of a day are abstract oracles.
 */
module CachePrewarm {
  import opened Wrappers
  import opened Rows
  import opened Decimal

  /** One day, in milliseconds (`setDate(getDate() - 1)`). */
  const DayMs: int := 24 * 60 * 60 * 1000

  /** Retention window used when none is configured. */
  const DefaultMaxAgeDays: int := 90

  /** A local calendar date: `getFullYear()`, `getMonth()` (0 to 11) and `getDate()`. */
  datatype LocalDate = LocalDate(year: int, monthIndex: int, day: int)

  /** What happened to one day. */
  datatype Outcome = Skipped | AlreadyCached | Warmed | Failed

  /** The collaborators of the job, as oracles over a day's instant. */
  datatype Environment = Environment(
    isCurrentServiceDay: int -> bool,
    hasCachedDailyStats: int -> bool,
    statusOf: int -> int,
    localDateOf: int -> LocalDate)

  // ---------------------------------------------------------------------
  // formatDate
  // ---------------------------------------------------------------------

  /** `s.padStart(width, fill)` with a one-character fill. */
  function PadStart(s: string, width: nat, fill: char): (r: string)
    ensures |r| == if |s| >= width then |s| else width
    ensures r[|r| - |s|..] == s
    ensures forall i | 0 <= i < |r| - |s| :: r[i] == fill
  {
    if |s| >= width then s else seq(width - |s|, _ => fill) + s
  }

  /** Three fields joined by dashes. */
  function Dashed(a: string, b: string, c: string): (r: string)
    ensures |r| == |a| + |b| + |c| + 2
    ensures r[..|a|] == a && r[|a|] == '-' && r[|a| + 1 + |b|] == '-'
  {
    a + "-" + b + "-" + c
  }

  /** `YYYY-MM-DD`: the year as `String` writes it, then month and day padded to two digits. */
  function FormatDate(d: LocalDate): (r: string)
    ensures var year := IntToString(d.year);
      |r| >= |year| + 6 && r[..|year|] == year && r[|year|] == '-'
  {
    Dashed(IntToString(d.year), PadStart(IntToString(d.monthIndex + 1), 2, '0'), PadStart(IntToString(d.day), 2, '0'))
  }

  /** Two decimal digits, tens first, written out directly. */
  function TwoDigitText(n: nat): (t: string)
    requires n < 100
    ensures |t| == 2 && AllDigits(t)
  {
    [DigitChar(n / 10), DigitChar(n % 10)]
  }

  /** The two digits read back as the number they were written for. */
  lemma TwoDigitTextValue(n: nat)
    requires n < 100
    ensures DigitsValue(TwoDigitText(n)) == n
  {
    var t := TwoDigitText(n);
    assert t[..1] == [DigitChar(n / 10)];
    assert t[..1][..0] == [];
  }

  /** `padStart(2, '0')` on the text of a number below 100 gives its two digits. */
  lemma PadTwoDigits(n: nat)
    requires n < 100
    ensures PadStart(IntToString(n), 2, '0') == TwoDigitText(n)
  {
    if n < 10 {
      assert IntToString(n) == [DigitChar(n)];
      assert DigitChar(0) == '0';
      assert n / 10 == 0 && n % 10 == n;
    } else {
      assert NatToString(n / 10) == [DigitChar(n / 10)];
      assert IntToString(n) == [DigitChar(n / 10), DigitChar(n % 10)];
    }
  }

  /**
   * With a month index in 0..11 and a day in 1..31 the formatted date is
   * the year's text, a dash, the two digits of month index + 1, a dash
   * and the two digits of the day.
   */
  lemma FormatDateLayout(d: LocalDate)
    requires 0 <= d.monthIndex < 12 && 1 <= d.day <= 31
    ensures FormatDate(d)
      == IntToString(d.year) + "-" + TwoDigitText(d.monthIndex + 1) + "-" + TwoDigitText(d.day)
  {
    var m := PadStart(IntToString(d.monthIndex + 1), 2, '0');
    var dd := PadStart(IntToString(d.day), 2, '0');
    assert FormatDate(d) == IntToString(d.year) + "-" + m + "-" + dd;
    PadTwoDigits(d.monthIndex + 1);
    PadTwoDigits(d.day);
  }
  /**
   * The request for a day whose local date has a month index in 0..11 and
   * a day in 1..31 is the query path, the year's text, a dash, the two
   * digits of the month, a dash and the two digits of the day.
   */
  lemma RequestUrlLayout(day: int, env: Environment)
    requires var d := env.localDateOf(day); 0 <= d.monthIndex < 12 && 1 <= d.day <= 31
    ensures var d := env.localDateOf(day);
      RequestUrl(day, env)
      == OnTimePerformanceQuery + (IntToString(d.year) + "-" + TwoDigitText(d.monthIndex + 1) + "-" + TwoDigitText(d.day))
  {
    var d := env.localDateOf(day);
    FormatDateLayout(d);
    var date := FormatDate(d);
    assert RequestUrl(day, env) == OnTimePerformanceQuery + date;
  }


  // ---------------------------------------------------------------------
  // Classifying one day
  // ---------------------------------------------------------------------

  /** `config.cacheMaxAgeDays || 90`: a missing or zero setting falls back to 90. */
  function MaxAgeDays(configured: Option<int>): (n: int)
    ensures n != 0
    ensures configured.Some? && configured.value != 0 ==> n == configured.value
    ensures configured.None? || configured.value == 0 ==> n == DefaultMaxAgeDays
  {
    if configured.Some? && configured.value != 0 then configured.value else DefaultMaxAgeDays
  }

  /** `yesterday`: the clock minus one day, to the millisecond. */
  function Yesterday(now: int): int
  {
    now - DayMs
  }

  /** `cutoffDate`: the clock minus the retention window. */
  function Cutoff(now: int, maxAgeDays: int): int
  {
    now - maxAgeDays * DayMs
  }

  /** The skip rules, in the order the job applies them. */
  predicate Skip(day: int, now: int, maxAgeDays: int, env: Environment)
  {
    env.isCurrentServiceDay(day) || day == Yesterday(now) || day < Cutoff(now, maxAgeDays)
  }

  function Classify(day: int, now: int, maxAgeDays: int, env: Environment): Outcome
  {
    if Skip(day, now, maxAgeDays, env) then Skipped
    else if env.hasCachedDailyStats(day) then AlreadyCached
    else if env.statusOf(day) >= 400 then Failed
    else Warmed
  }

  /** Not current, not exactly yesterday, within the retention window and not cached yet. */
  predicate Settled(day: int, now: int, maxAgeDays: int, env: Environment)
  {
    !env.isCurrentServiceDay(day) && day != Yesterday(now) && day >= Cutoff(now, maxAgeDays)
      && !env.hasCachedDailyStats(day)
  }

  /** The days the job sends a request for: neither skipped nor already cached. */
  predicate Requested(day: int, now: int, maxAgeDays: int, env: Environment)
  {
    var o := Classify(day, now, maxAgeDays, env);
    o == Warmed || o == Failed
  }

  function OutcomeCount(days: seq<int>, now: int, maxAgeDays: int, env: Environment, o: Outcome): nat
  {
    CountWhere(days, d => Classify(d, now, maxAgeDays, env) == o)
  }

  const OnTimePerformanceQuery: string := "/api/onTimePerformance?date="

  /** The internal request sent for one day. */
  function RequestUrl(day: int, env: Environment): string
  {
    OnTimePerformanceQuery + FormatDate(env.localDateOf(day))
  }

  /** The requests sent for `days`, in the order of the days. */
  function Requests(days: seq<int>, now: int, maxAgeDays: int, env: Environment): seq<string>
  {
    if days == [] then []
    else
      var last := days[|days| - 1];
      Requests(days[..|days| - 1], now, maxAgeDays, env)
        + (if Requested(last, now, maxAgeDays, env) then [RequestUrl(last, env)] else [])
  }

  // ---------------------------------------------------------------------
  // The job
  // ---------------------------------------------------------------------

  /**
   * The service days as `SELECT DISTINCT date ... ORDER BY date` returns
   * them: each day once, earliest first. Since no day comes back, a
   * request that fills the cache never meets its own day again, so the
   * cache can be read as fixed for the whole run.
   */
  predicate Ascending(days: seq<int>)
  {
    forall i, j | 0 <= i < j < |days| :: days[i] < days[j]
  }

  /**
   * Walks `days` in order and returns the three counters and the requests
   * sent. Each day is counted under the outcome its classification gives;
   * the counters never exceed the number of days and add up to it when
   * no request fails.
   */
  method WarmOnTimePerformanceCache(days: seq<int>, now: int, configuredMaxAgeDays: Option<int>, env: Environment)
    returns (warmed: nat, skipped: nat, alreadyCached: nat, requests: seq<string>)
    requires Ascending(days)
    ensures var maxAge := MaxAgeDays(configuredMaxAgeDays);
      && warmed == OutcomeCount(days, now, maxAge, env, Warmed)
      && skipped == OutcomeCount(days, now, maxAge, env, Skipped)
      && alreadyCached == OutcomeCount(days, now, maxAge, env, AlreadyCached)
      && requests == Requests(days, now, maxAge, env)
    ensures warmed + alreadyCached + skipped <= |days|
    ensures warmed + alreadyCached + skipped + OutcomeCount(days, now, MaxAgeDays(configuredMaxAgeDays), env, Failed) == |days|
  {
    var maxAgeDays := MaxAgeDays(configuredMaxAgeDays);
    warmed, skipped, alreadyCached, requests := VisitDays(days, now, maxAgeDays, env);
    OutcomesPartition(days, now, maxAgeDays, env);
  }

  /** The loop over the days, with the retention window already resolved. */
  method VisitDays(days: seq<int>, now: int, maxAgeDays: int, env: Environment)
    returns (warmed: nat, skipped: nat, alreadyCached: nat, requests: seq<string>)
    requires Ascending(days)
    ensures warmed == OutcomeCount(days, now, maxAgeDays, env, Warmed)
    ensures skipped == OutcomeCount(days, now, maxAgeDays, env, Skipped)
    ensures alreadyCached == OutcomeCount(days, now, maxAgeDays, env, AlreadyCached)
    ensures requests == Requests(days, now, maxAgeDays, env)
  {
    warmed, skipped, alreadyCached := 0, 0, 0;
    requests := [];
    for i := 0 to |days|
      invariant warmed == OutcomeCount(days[..i], now, maxAgeDays, env, Warmed)
      invariant skipped == OutcomeCount(days[..i], now, maxAgeDays, env, Skipped)
      invariant alreadyCached == OutcomeCount(days[..i], now, maxAgeDays, env, AlreadyCached)
      invariant requests == Requests(days[..i], now, maxAgeDays, env)
    {
      NextDay(days, i, now, maxAgeDays, env);
      warmed, skipped, alreadyCached, requests := VisitDay(days[i], now, maxAgeDays, env, warmed, skipped, alreadyCached, requests);
    }
    assert days[..|days|] == days;
  }

  /**
   * One pass of the loop body: the skip rules in order, then the cache
   * check, then the request, whose status decides whether the day counts
   * as warmed.
   */
  method VisitDay(day: int, now: int, maxAgeDays: int, env: Environment,
                  warmed: nat, skipped: nat, alreadyCached: nat, requests: seq<string>)
    returns (warmed': nat, skipped': nat, alreadyCached': nat, requests': seq<string>)
    ensures var o := Classify(day, now, maxAgeDays, env);
      && warmed' == warmed + (if o == Warmed then 1 else 0)
      && skipped' == skipped + (if o == Skipped then 1 else 0)
      && alreadyCached' == alreadyCached + (if o == AlreadyCached then 1 else 0)
      && requests' == requests + (if Requested(day, now, maxAgeDays, env) then [RequestUrl(day, env)] else [])
  {
    warmed', skipped', alreadyCached', requests' := warmed, skipped, alreadyCached, requests;
    if env.isCurrentServiceDay(day) {
      skipped' := skipped + 1;
      return;
    }
    if day == Yesterday(now) {
      skipped' := skipped + 1;
      return;
    }
    if day < Cutoff(now, maxAgeDays) {
      skipped' := skipped + 1;
      return;
    }
    if env.hasCachedDailyStats(day) {
      alreadyCached' := alreadyCached + 1;
      return;
    }
    requests' := requests + [RequestUrl(day, env)];
    if env.statusOf(day) < 400 {
      warmed' := warmed + 1;
    }
  }

  /** The counters and requests after one more day. */
  lemma NextDay(days: seq<int>, i: int, now: int, maxAgeDays: int, env: Environment)
    requires 0 <= i < |days|
    ensures var o := Classify(days[i], now, maxAgeDays, env);
      && OutcomeCount(days[..i + 1], now, maxAgeDays, env, Warmed)
         == OutcomeCount(days[..i], now, maxAgeDays, env, Warmed) + (if o == Warmed then 1 else 0)
      && OutcomeCount(days[..i + 1], now, maxAgeDays, env, Skipped)
         == OutcomeCount(days[..i], now, maxAgeDays, env, Skipped) + (if o == Skipped then 1 else 0)
      && OutcomeCount(days[..i + 1], now, maxAgeDays, env, AlreadyCached)
         == OutcomeCount(days[..i], now, maxAgeDays, env, AlreadyCached) + (if o == AlreadyCached then 1 else 0)
    ensures Requests(days[..i + 1], now, maxAgeDays, env)
      == Requests(days[..i], now, maxAgeDays, env)
         + (if Requested(days[i], now, maxAgeDays, env) then [RequestUrl(days[i], env)] else [])
  {
    assert days[..i + 1] == days[..i] + [days[i]];
    assert days[..i + 1][..i] == days[..i];
    CountAppend(days[..i], days[i], d => Classify(d, now, maxAgeDays, env) == Warmed);
    CountAppend(days[..i], days[i], d => Classify(d, now, maxAgeDays, env) == Skipped);
    CountAppend(days[..i], days[i], d => Classify(d, now, maxAgeDays, env) == AlreadyCached);
  }

  // ---------------------------------------------------------------------
  // Properties of the day classification
  // ---------------------------------------------------------------------

  /** Every day has exactly one outcome: the four counts add up to the number of days. */
  lemma {:induction false} OutcomesPartition(days: seq<int>, now: int, maxAgeDays: int, env: Environment)
    ensures OutcomeCount(days, now, maxAgeDays, env, Skipped)
          + OutcomeCount(days, now, maxAgeDays, env, AlreadyCached)
          + OutcomeCount(days, now, maxAgeDays, env, Warmed)
          + OutcomeCount(days, now, maxAgeDays, env, Failed) == |days|
  {
    if days != [] {
      OutcomesPartition(days[1..], now, maxAgeDays, env);
    }
  }

  /**
   * Only a failing status makes a failed day: when every status is below
   * 400, no day fails, so the three counters account for every day.
   */
  lemma NoFailureWithoutErrorStatus(days: seq<int>, now: int, maxAgeDays: int, env: Environment)
    requires forall d | d in days :: env.statusOf(d) < 400
    ensures OutcomeCount(days, now, maxAgeDays, env, Failed) == 0
    ensures OutcomeCount(days, now, maxAgeDays, env, Warmed) + OutcomeCount(days, now, maxAgeDays, env, AlreadyCached)
          + OutcomeCount(days, now, maxAgeDays, env, Skipped) == |days|
  {
    OutcomesPartition(days, now, maxAgeDays, env);
  }

  /** One request per day that is neither skipped nor already cached: as many as warmed plus failed days. */
  lemma {:induction false} RequestsAreWarmedOrFailed(days: seq<int>, now: int, maxAgeDays: int, env: Environment)
    ensures |Requests(days, now, maxAgeDays, env)|
         == OutcomeCount(days, now, maxAgeDays, env, Warmed) + OutcomeCount(days, now, maxAgeDays, env, Failed)
    decreases |days|
  {
    if days != [] {
      var init, last := days[..|days| - 1], days[|days| - 1];
      assert days == init + [last];
      RequestsAreWarmedOrFailed(init, now, maxAgeDays, env);
      CountAppend(init, last, d => Classify(d, now, maxAgeDays, env) == Warmed);
      CountAppend(init, last, d => Classify(d, now, maxAgeDays, env) == Failed);
    }
  }

  /** Requests follow the order of the days: those for earlier days come first. */
  lemma {:induction false} RequestsInDayOrder(a: seq<int>, b: seq<int>, now: int, maxAgeDays: int, env: Environment)
    ensures Requests(a + b, now, maxAgeDays, env) == Requests(a, now, maxAgeDays, env) + Requests(b, now, maxAgeDays, env)
    decreases |b|
  {
    if b == [] {
      assert a + b == a;
    } else {
      var init, last := b[..|b| - 1], b[|b| - 1];
      assert (a + b)[..|a + b| - 1] == a + init;
      RequestsInDayOrder(a, init, now, maxAgeDays, env);
    }
  }

  /**
   * Every request is for a day of the input that is settled: not the
   * current service day, not exactly `yesterday`, not older than the
   * cutoff, and not cached yet.
   */
  lemma {:induction false} RequestsOnlyForSettledDays(days: seq<int>, now: int, maxAgeDays: int, env: Environment, j: int)
    requires 0 <= j < |Requests(days, now, maxAgeDays, env)|
    ensures exists d | d in days :: Settled(d, now, maxAgeDays, env) && Requests(days, now, maxAgeDays, env)[j] == RequestUrl(d, env)
    decreases |days|
  {
    var init, last := days[..|days| - 1], days[|days| - 1];
    var r := Requests(days, now, maxAgeDays, env);
    var head := Requests(init, now, maxAgeDays, env);
    var tail := if Requested(last, now, maxAgeDays, env) then [RequestUrl(last, env)] else [];
    assert r == head + tail;
    if j < |head| {
      assert r[j] == head[j];
      RequestsOnlyForSettledDays(init, now, maxAgeDays, env, j);
      var d :| d in init && Settled(d, now, maxAgeDays, env) && head[j] == RequestUrl(d, env);
      assert d in days;
    } else {
      assert r[j] == RequestUrl(last, env);
      assert last in days;
    }
  }

  /**
   * Conversely, every settled day of the input is requested: the job sends
   * the request for each day that passes the skip rules and the cache check.
   */
  lemma {:induction false} EverySettledDayRequested(days: seq<int>, now: int, maxAgeDays: int, env: Environment, d: int)
    requires d in days && Settled(d, now, maxAgeDays, env)
    ensures RequestUrl(d, env) in Requests(days, now, maxAgeDays, env)
    decreases |days|
  {
    var init, last := days[..|days| - 1], days[|days| - 1];
    assert days == init + [last];
    if d == last {
      assert Requested(last, now, maxAgeDays, env);
    } else {
      EverySettledDayRequested(init, now, maxAgeDays, env, d);
    }
  }

  /**
   * The yesterday rule is an exact comparison: a day one millisecond off
   * `yesterday`, not current, within the retention window and not cached,
   * is requested.
   */
  lemma YesterdayIsExact(now: int, maxAgeDays: int, env: Environment)
    requires maxAgeDays >= 2
    requires !env.isCurrentServiceDay(Yesterday(now) + 1) && !env.hasCachedDailyStats(Yesterday(now) + 1)
    ensures Classify(Yesterday(now), now, maxAgeDays, env) == Skipped
    ensures Requested(Yesterday(now) + 1, now, maxAgeDays, env)
  {
    assert maxAgeDays * DayMs >= 2 * DayMs;
  }

  /**
   * Days read from the history fall on midnights. Unless the clock itself
   * sits on a midnight, no such day equals `yesterday`, so only the
   * current-day and cutoff rules can skip it.
   */
  lemma MidnightNeverYesterday(day: int, now: int, maxAgeDays: int, env: Environment)
    requires day % DayMs == 0 && now % DayMs != 0
    ensures Skip(day, now, maxAgeDays, env) <==> env.isCurrentServiceDay(day) || day < Cutoff(now, maxAgeDays)
  {
  }
}

/**
 * The bus-count endpoint: seven counts that reconcile the published
 * schedule (block rows), live vehicle observations and cancellations at
 * one instant, and the daily graph that samples those counts every
 * fifteen minutes.
 *
 * Instants are integer milliseconds (the value of a JavaScript Date).
 * Service times are integer seconds since the start of the service day;
 * they are not wrapped at midnight, so 25:30:00 is 91800.
 */
module BusCount {
  import opened Wrappers
  import opened Rows

  /** Depot and garage pull-in routes, excluded from every trip count. */
  const ExcludedRoutes: set<string> := {"1-350", "2-354", "4-354"}

  /** Half-width of the narrow observation window: two minutes, in milliseconds. */
  const WindowMs: int := 1000 * 60 * 2

  /** Grace period subtracted from a trip's scheduled end: ten minutes, in seconds. */
  const EndGraceSeconds: int := 60 * 10

  /** One scheduled trip of a block (a row of `blocks`). */
  datatype Block = Block(
    tripId: string,
    routeId: string,
    gtfsVersion: int,
    serviceId: string,
    startTime: int,
    endTime: int)

  /** One vehicle observation (a row of `vehicles`). */
  datatype Vehicle = Vehicle(
    id: string,
    time: int,
    tripId: Option<string>,
    nextStopId: Option<string>)

  /** One cancellation (a row of `canceled`). */
  datatype Cancellation = Cancellation(date: string, tripId: string)

  /** The three relations the counts are computed from. */
  datatype Database = Database(
    blocks: seq<Block>,
    vehicles: seq<Vehicle>,
    canceled: seq<Cancellation>)

  /** Padded service-day boundaries, as instants. */
  datatype ServiceDay = ServiceDay(start: int, end: int)

  /**
   * The schedule helpers the endpoint calls, as abstract total functions:
   * the day of an instant, the timetable version and active service ids
   * of a day, the service time of an instant, the padded boundaries of a
   * day and the date string of a day.
   */
  datatype Calendar = Calendar(
    dateOf: int -> int,
    gtfsVersionOf: int -> int,
    serviceIdsOf: (int, int) -> set<string>,
    timeStringOf: int -> int,
    serviceDayOf: int -> ServiceDay,
    dateStringOf: int -> string)

  /** Everything one snapshot's queries are parameterised by. */
  datatype Context = Context(
    instant: int,
    gtfsVersion: int,
    serviceIds: set<string>,
    timeString: int,
    serviceDay: ServiceDay,
    dateString: string)

  /** The seven counts of one snapshot. */
  datatype BusCountData = BusCountData(
    activeBuses: nat,
    busesOnRoutes: nat,
    tripsScheduled: nat,
    tripsNotRunning: nat,
    tripsNeverRan: nat,
    tripsCanceled: nat,
    tripsStillRunning: nat)

  /** One point of the daily graph. */
  datatype BusCountGraph = BusCountGraph(counts: BusCountData, time: int)

  function Resolve(cal: Calendar, instant: int): Context
  {
    var day := cal.dateOf(instant);
    var version := cal.gtfsVersionOf(day);
    Context(instant, version, cal.serviceIdsOf(version, day), cal.timeStringOf(instant),
            cal.serviceDayOf(day), cal.dateStringOf(day))
  }

  // ---------------------------------------------------------------------
  // The WHERE clauses
  // ---------------------------------------------------------------------

  /** Strictly inside the open interval (lo, hi). */
  predicate Between(time: int, lo: int, hi: int)
  {
    lo < time < hi
  }

  /** Strictly inside the narrow window around the snapshot instant. */
  predicate InWindow(v: Vehicle, ctx: Context)
  {
    Between(v.time, ctx.instant - WindowMs, ctx.instant + WindowMs)
  }

  /** Some observation strictly inside (lo, hi) carries the given trip id. */
  predicate Reported(vehicles: seq<Vehicle>, tripId: string, lo: int, hi: int)
  {
    exists v | v in vehicles :: Between(v.time, lo, hi) && v.tripId == Some(tripId)
  }

  /** Not one of the excluded depot routes. */
  predicate RevenueRoute(b: Block)
  {
    b.routeId !in ExcludedRoutes
  }

  /** Same timetable version, an active service id and not an excluded route. */
  predicate Eligible(b: Block, ctx: Context)
  {
    b.gtfsVersion == ctx.gtfsVersion && b.serviceId in ctx.serviceIds && RevenueRoute(b)
  }

  /** The correlated sub-select of `busesOnRoutes`: the vehicle's trip is an eligible
      block whose end, less the grace period, is still after the service time. */
  predicate TripEndsLater(blocks: seq<Block>, tripId: string, ctx: Context)
  {
    exists b | b in blocks :: Eligible(b, ctx) && b.tripId == tripId && b.endTime - EndGraceSeconds > ctx.timeString
  }

  predicate OnRoute(v: Vehicle, blocks: seq<Block>, ctx: Context)
  {
    InWindow(v, ctx) && v.tripId.Some? &&
    (v.nextStopId.Some? || TripEndsLater(blocks, v.tripId.value, ctx))
  }

  /** `start_time <= t and end_time > t`. */
  predicate Scheduled(b: Block, ctx: Context)
  {
    Eligible(b, ctx) && b.startTime <= ctx.timeString && b.endTime > ctx.timeString
  }

  /** `start_time < t and end_time > t`: the base of the next three counts. */
  predicate Underway(b: Block, ctx: Context)
  {
    Eligible(b, ctx) && b.startTime < ctx.timeString && b.endTime > ctx.timeString
  }

  predicate NotRunning(b: Block, vehicles: seq<Vehicle>, ctx: Context)
  {
    Underway(b, ctx) && !Reported(vehicles, b.tripId, ctx.instant - WindowMs, ctx.instant + WindowMs)
  }

  predicate NeverRan(b: Block, vehicles: seq<Vehicle>, ctx: Context)
  {
    Underway(b, ctx) && !Reported(vehicles, b.tripId, ctx.serviceDay.start, ctx.serviceDay.end)
  }

  predicate Canceled(b: Block, canceled: seq<Cancellation>, ctx: Context)
  {
    Underway(b, ctx) && exists c | c in canceled :: c.date == ctx.dateString && c.tripId == b.tripId
  }

  /** `end_time < t` with an observation in the window that still has a next stop. */
  predicate StillRunning(b: Block, vehicles: seq<Vehicle>, ctx: Context)
  {
    Eligible(b, ctx) && b.endTime < ctx.timeString &&
    exists v | v in vehicles :: InWindow(v, ctx) && v.nextStopId.Some? && v.tripId == Some(b.tripId)
  }

  // ---------------------------------------------------------------------
  // The seven queries
  // ---------------------------------------------------------------------

  /** `count(distinct id)` of the observations inside the narrow window. */
  function ActiveBusIds(vehicles: seq<Vehicle>, ctx: Context): set<string>
  {
    set v | v in vehicles && InWindow(v, ctx) :: v.id
  }

  function OnRouteBusIds(db: Database, ctx: Context): set<string>
  {
    set v | v in db.vehicles && OnRoute(v, db.blocks, ctx) :: v.id
  }

  function TripsScheduled(db: Database, ctx: Context): nat
  {
    CountWhere(db.blocks, b => Scheduled(b, ctx))
  }

  function TripsNotRunning(db: Database, ctx: Context): nat
  {
    CountWhere(db.blocks, b => NotRunning(b, db.vehicles, ctx))
  }

  function TripsNeverRan(db: Database, ctx: Context): nat
  {
    CountWhere(db.blocks, b => NeverRan(b, db.vehicles, ctx))
  }

  function TripsCanceled(db: Database, ctx: Context): nat
  {
    CountWhere(db.blocks, b => Canceled(b, db.canceled, ctx))
  }

  function TripsStillRunning(db: Database, ctx: Context): nat
  {
    CountWhere(db.blocks, b => StillRunning(b, db.vehicles, ctx))
  }

  /** The padded service day contains the whole narrow window. */
  predicate DayCoversWindow(ctx: Context)
  {
    ctx.serviceDay.start <= ctx.instant - WindowMs && ctx.instant + WindowMs <= ctx.serviceDay.end
  }

  function Snapshot(db: Database, ctx: Context): BusCountData
  {
    BusCountData(
      |ActiveBusIds(db.vehicles, ctx)|,
      |OnRouteBusIds(db, ctx)|,
      TripsScheduled(db, ctx),
      TripsNotRunning(db, ctx),
      TripsNeverRan(db, ctx),
      TripsCanceled(db, ctx),
      TripsStillRunning(db, ctx))
  }

  /**
   * The seven counts at `instant`. Buses on routes never outnumber active
   * buses; trips not running and trips canceled never outnumber trips
   * scheduled; scheduled and still-running trips are disjoint; and trips
   * that never ran never outnumber trips not running when the padded
   * service day covers the narrow window.
   */
  function GetBusCounts(db: Database, cal: Calendar, instant: int): (d: BusCountData)
    ensures d.busesOnRoutes <= d.activeBuses
    ensures d.tripsNotRunning <= d.tripsScheduled
    ensures d.tripsCanceled <= d.tripsScheduled
    ensures d.tripsScheduled + d.tripsStillRunning <= |db.blocks|
    ensures forall b | b in db.blocks ::
      !(Scheduled(b, Resolve(cal, instant)) && StillRunning(b, db.vehicles, Resolve(cal, instant)))
    ensures DayCoversWindow(Resolve(cal, instant)) ==> d.tripsNeverRan <= d.tripsNotRunning
  {
    var ctx := Resolve(cal, instant);
    OnRouteWithinActive(db, ctx);
    NotRunningWithinScheduled(db, ctx);
    CanceledWithinScheduled(db, ctx);
    ScheduledDisjointFromStillRunning(db, ctx);
    if DayCoversWindow(ctx) then
      NeverRanWithinNotRunning(db, ctx);
      Snapshot(db, ctx)
    else
      Snapshot(db, ctx)
  }

  // ---------------------------------------------------------------------
  // Relations between the counts
  // ---------------------------------------------------------------------

  lemma SubsetCardinality(a: set<string>, b: set<string>)
    requires a <= b
    ensures |a| <= |b|
  {
    assert b == a + (b - a);
  }

  /** Every bus on a route is an active bus. */
  lemma OnRouteWithinActive(db: Database, ctx: Context)
    ensures OnRouteBusIds(db, ctx) <= ActiveBusIds(db.vehicles, ctx)
    ensures |OnRouteBusIds(db, ctx)| <= |ActiveBusIds(db.vehicles, ctx)|
  {
    SubsetCardinality(OnRouteBusIds(db, ctx), ActiveBusIds(db.vehicles, ctx));
  }

  lemma NotRunningWithinScheduled(db: Database, ctx: Context)
    ensures TripsNotRunning(db, ctx) <= TripsScheduled(db, ctx)
  {
    CountMonotone(db.blocks, b => NotRunning(b, db.vehicles, ctx), b => Scheduled(b, ctx));
  }

  lemma CanceledWithinScheduled(db: Database, ctx: Context)
    ensures TripsCanceled(db, ctx) <= TripsScheduled(db, ctx)
  {
    CountMonotone(db.blocks, b => Canceled(b, db.canceled, ctx), b => Scheduled(b, ctx));
  }

  /** A trip still running has ended (`end_time < t`), so it is not scheduled (`end_time > t`). */
  lemma ScheduledDisjointFromStillRunning(db: Database, ctx: Context)
    ensures forall b | b in db.blocks :: !(Scheduled(b, ctx) && StillRunning(b, db.vehicles, ctx))
    ensures CountWhere(db.blocks, b => Scheduled(b, ctx) || StillRunning(b, db.vehicles, ctx))
      == TripsScheduled(db, ctx) + TripsStillRunning(db, ctx)
    ensures TripsScheduled(db, ctx) + TripsStillRunning(db, ctx) <= |db.blocks|
  {
    CountDisjointUnion(db.blocks, b => Scheduled(b, ctx), b => StillRunning(b, db.vehicles, ctx),
      b => Scheduled(b, ctx) || StillRunning(b, db.vehicles, ctx));
  }

  /** A trip with no observation in the whole padded day has none in the narrow window either. */
  lemma NeverRanIsNotRunning(b: Block, vehicles: seq<Vehicle>, ctx: Context)
    requires DayCoversWindow(ctx)
    ensures NeverRan(b, vehicles, ctx) ==> NotRunning(b, vehicles, ctx)
  {
    if Reported(vehicles, b.tripId, ctx.instant - WindowMs, ctx.instant + WindowMs) {
      var v :| v in vehicles && Between(v.time, ctx.instant - WindowMs, ctx.instant + WindowMs) && v.tripId == Some(b.tripId);
      assert Between(v.time, ctx.serviceDay.start, ctx.serviceDay.end);
    }
  }

  lemma NeverRanWithinNotRunning(db: Database, ctx: Context)
    requires DayCoversWindow(ctx)
    ensures TripsNeverRan(db, ctx) <= TripsNotRunning(db, ctx)
  {
    forall b | b in db.blocks
      ensures NeverRan(b, db.vehicles, ctx) ==> NotRunning(b, db.vehicles, ctx)
    {
      NeverRanIsNotRunning(b, db.vehicles, ctx);
    }
    CountMonotone(db.blocks, b => NeverRan(b, db.vehicles, ctx), b => NotRunning(b, db.vehicles, ctx));
  }

  // ---------------------------------------------------------------------
  // Boundary cases
  // ---------------------------------------------------------------------

  /** An observation outside the narrow window adds no bus to either bus count. */
  lemma OutsideWindowAddsNoBus(db: Database, ctx: Context, v: Vehicle)
    requires !InWindow(v, ctx)
    ensures ActiveBusIds(db.vehicles + [v], ctx) == ActiveBusIds(db.vehicles, ctx)
    ensures OnRouteBusIds(db.(vehicles := db.vehicles + [v]), ctx) == OnRouteBusIds(db, ctx)
  {
    var db' := db.(vehicles := db.vehicles + [v]);
    forall id | id in ActiveBusIds(db'.vehicles, ctx)
      ensures id in ActiveBusIds(db.vehicles, ctx)
    {
      var w :| w in db'.vehicles && InWindow(w, ctx) && w.id == id;
      assert w in db.vehicles;
    }
    forall id | id in OnRouteBusIds(db', ctx)
      ensures id in OnRouteBusIds(db, ctx)
    {
      var w :| w in db'.vehicles && OnRoute(w, db.blocks, ctx) && w.id == id;
      assert w in db.vehicles;
    }
  }

  /** An observation outside the narrow window changes no trip's narrow-window classification. */
  lemma OutsideWindowKeepsTrips(vehicles: seq<Vehicle>, ctx: Context, v: Vehicle, b: Block)
    requires !InWindow(v, ctx)
    ensures NotRunning(b, vehicles + [v], ctx) == NotRunning(b, vehicles, ctx)
    ensures StillRunning(b, vehicles + [v], ctx) == StillRunning(b, vehicles, ctx)
  {
    if Reported(vehicles + [v], b.tripId, ctx.instant - WindowMs, ctx.instant + WindowMs) {
      var w :| w in vehicles + [v] && Between(w.time, ctx.instant - WindowMs, ctx.instant + WindowMs) && w.tripId == Some(b.tripId);
      assert w in vehicles;
    }
    if exists w | w in vehicles + [v] :: InWindow(w, ctx) && w.nextStopId.Some? && w.tripId == Some(b.tripId) {
      var w :| w in vehicles + [v] && InWindow(w, ctx) && w.nextStopId.Some? && w.tripId == Some(b.tripId);
      assert w in vehicles;
    }
  }

  /**
   * The narrow window is open: an extra observation made exactly two
   * minutes before or after the instant changes none of the counts that
   * use that window.
   */
  lemma WindowIsOpen(db: Database, ctx: Context, v: Vehicle)
    requires v.time == ctx.instant - WindowMs || v.time == ctx.instant + WindowMs
    ensures var db' := db.(vehicles := db.vehicles + [v]);
      && |ActiveBusIds(db'.vehicles, ctx)| == |ActiveBusIds(db.vehicles, ctx)|
      && |OnRouteBusIds(db', ctx)| == |OnRouteBusIds(db, ctx)|
      && TripsNotRunning(db', ctx) == TripsNotRunning(db, ctx)
      && TripsStillRunning(db', ctx) == TripsStillRunning(db, ctx)
  {
    var db' := db.(vehicles := db.vehicles + [v]);
    OutsideWindowAddsNoBus(db, ctx, v);
    forall b | b in db.blocks
      ensures NotRunning(b, db'.vehicles, ctx) == NotRunning(b, db.vehicles, ctx)
      ensures StillRunning(b, db'.vehicles, ctx) == StillRunning(b, db.vehicles, ctx)
    {
      OutsideWindowKeepsTrips(db.vehicles, ctx, v, b);
    }
    CountSame(db.blocks, b => NotRunning(b, db'.vehicles, ctx), b => NotRunning(b, db.vehicles, ctx));
    CountSame(db.blocks, b => StillRunning(b, db'.vehicles, ctx), b => StillRunning(b, db.vehicles, ctx));
  }

  /**
   * A trip that starts exactly at the service time is scheduled but is
   * none of not running, never ran or canceled: adding it raises
   * `tripsScheduled` by one and leaves those three counts unchanged.
   */
  lemma TripStartingNow(db: Database, ctx: Context, b: Block)
    requires Eligible(b, ctx) && b.startTime == ctx.timeString < b.endTime
    ensures var db' := db.(blocks := db.blocks + [b]);
      && TripsScheduled(db', ctx) == TripsScheduled(db, ctx) + 1
      && TripsNotRunning(db', ctx) == TripsNotRunning(db, ctx)
      && TripsNeverRan(db', ctx) == TripsNeverRan(db, ctx)
      && TripsCanceled(db', ctx) == TripsCanceled(db, ctx)
  {
    CountAppend(db.blocks, b, b => Scheduled(b, ctx));
    CountAppend(db.blocks, b, b => NotRunning(b, db.vehicles, ctx));
    CountAppend(db.blocks, b, b => NeverRan(b, db.vehicles, ctx));
    CountAppend(db.blocks, b, b => Canceled(b, db.canceled, ctx));
  }

  /** A trip that ends exactly at the service time is neither scheduled nor still running. */
  lemma TripEndingNow(db: Database, ctx: Context, b: Block)
    requires b.endTime == ctx.timeString
    ensures var db' := db.(blocks := db.blocks + [b]);
      && TripsScheduled(db', ctx) == TripsScheduled(db, ctx)
      && TripsStillRunning(db', ctx) == TripsStillRunning(db, ctx)
  {
    CountAppend(db.blocks, b, b => Scheduled(b, ctx));
    CountAppend(db.blocks, b, b => StillRunning(b, db.vehicles, ctx));
  }

  /**
   * Rows of the excluded routes contribute to no count: dropping them
   * from `blocks` leaves all seven counts unchanged.
   */
  lemma ExcludedRoutesIgnored(db: Database, cal: Calendar, instant: int)
    ensures GetBusCounts(db.(blocks := Filter(db.blocks, RevenueRoute)), cal, instant)
         == GetBusCounts(db, cal, instant)
  {
    var keep := RevenueRoute;
    var ctx := Resolve(cal, instant);
    var db' := db.(blocks := Filter(db.blocks, keep));
    forall v | v in db.vehicles && v.tripId.Some?
      ensures TripEndsLater(db'.blocks, v.tripId.value, ctx) == TripEndsLater(db.blocks, v.tripId.value, ctx)
    {
      if TripEndsLater(db.blocks, v.tripId.value, ctx) {
        var b :| b in db.blocks && Eligible(b, ctx) && b.tripId == v.tripId.value && b.endTime - EndGraceSeconds > ctx.timeString;
        assert b in db'.blocks;
      }
    }
    assert OnRouteBusIds(db', ctx) == OnRouteBusIds(db, ctx);
    CountFilter(db.blocks, b => Scheduled(b, ctx), keep);
    CountFilter(db.blocks, b => NotRunning(b, db.vehicles, ctx), keep);
    CountFilter(db.blocks, b => NeverRan(b, db.vehicles, ctx), keep);
    CountFilter(db.blocks, b => Canceled(b, db.canceled, ctx), keep);
    CountFilter(db.blocks, b => StillRunning(b, db.vehicles, ctx), keep);
  }

  // ---------------------------------------------------------------------
  // The daily graph
  // ---------------------------------------------------------------------

  /** First sample: 03:00:00. */
  const GraphStart: int := 3 * 60 * 60
  /** Samples are taken while the time is strictly below 27:00:00. */
  const GraphEnd: int := 27 * 60 * 60
  /** Fifteen minutes between samples. */
  const GraphStep: int := 60 * 15

  /** The instant of service time `seconds` on the day that starts at `dayStart`. */
  function InstantAt(dayStart: int, seconds: int): int
  {
    dayStart + 1000 * seconds
  }

  /**
   * The sampling loop of the daily graph: from 03:00:00, while the time is
   * below 27:00:00, queue the counts at that time and step fifteen minutes.
   * `countsAt` is the count query at an instant. It queues 96 samples at
   * 03:00:00 + 15 min * i, each holding the counts at its own instant.
   */
  method QueueSamples(countsAt: int -> BusCountData, dayStart: int) returns (pending: seq<BusCountGraph>)
    ensures |pending| == 96
    ensures forall i | 0 <= i < |pending| :: pending[i].time == GraphStart + GraphStep * i
    ensures forall i | 0 <= i < |pending| :: pending[i].counts == countsAt(InstantAt(dayStart, pending[i].time))
  {
    assert GraphStart == 10800 && GraphEnd == 97200 && GraphStep == 900;
    pending := [];
    var currentTime := GraphStart;
    while GraphEnd - currentTime > 0
      invariant currentTime == GraphStart + GraphStep * |pending|
      invariant currentTime <= GraphEnd
      invariant forall i | 0 <= i < |pending| :: pending[i].time == GraphStart + GraphStep * i
      invariant forall i | 0 <= i < |pending| :: pending[i].counts == countsAt(InstantAt(dayStart, pending[i].time))
      decreases GraphEnd - currentTime
    {
      var counts := countsAt(InstantAt(dayStart, currentTime));
      pending := pending + [BusCountGraph(counts, currentTime)];
      currentTime := currentTime + GraphStep;
    }
  }

  /**
   * The queued samples awaited one by one, in order: each result carries
   * the awaited counts and the time of its sample.
   */
  method AwaitSamples(pending: seq<BusCountGraph>) returns (results: seq<BusCountGraph>)
    ensures results == pending
  {
    results := [];
    for k := 0 to |pending|
      invariant results == pending[..k]
    {
      results := results + [BusCountGraph(pending[k].counts, pending[k].time)];
    }
    assert pending[..|pending|] == pending;
  }

  /**
   * The daily graph of the day starting at `dayStart`: 96 samples at
   * 03:00:00 + 15 min * i, in ascending order, the last at 26:45:00, each
   * holding the counts computed at its own instant.
   */
  method GetGraphData(db: Database, cal: Calendar, dayStart: int) returns (results: seq<BusCountGraph>)
    ensures |results| == 96
    ensures forall i | 0 <= i < |results| :: results[i].time == GraphStart + GraphStep * i
    ensures forall i | 0 <= i < |results| ::
      results[i].counts == GetBusCounts(db, cal, InstantAt(dayStart, results[i].time))
    ensures forall i, j | 0 <= i < j < |results| :: results[i].time < results[j].time
    ensures forall i | 0 <= i < |results| :: results[i].time < GraphEnd
    ensures results[|results| - 1].time == 26 * 60 * 60 + 45 * 60
  {
    var pending := QueueSamples((instant: int) => GetBusCounts(db, cal, instant), dayStart);
    results := AwaitSamples(pending);
    assert GraphStart == 10800 && GraphEnd == 97200 && GraphStep == 900;
  }
}

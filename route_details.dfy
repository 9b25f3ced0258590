/**
 * The trip details of one route and day: one record per scheduled trip
 * row, with the observed start and end of the trip reported only when
 * the observations support them.
 *
 * The joined query is an input: a sequence of rows whose nullable
 * columns are `Option`s. Time strings keep their text; the seconds a
 * time string stands for and the current service time are inputs.
 */
module RouteDetails {
  import opened Wrappers

  /** One row of the joined query. */
  datatype BlockDataRow = BlockDataRow(
    blockId: string,
    tripId: string,
    tripHeadsign: string,
    routeDirection: int,
    startTime: string,
    endTime: string,
    busId: Option<string>,
    actualStartTime: Option<string>,
    actualEndTime: Option<string>,
    delayMin: Option<int>,
    scheduleRelationship: Option<int>,
    nextStopId: Option<string>)

  /** One record of the answer. */
  datatype TripDetails = TripDetails(
    tripId: string,
    headSign: string,
    routeDirection: int,
    scheduledStartTime: string,
    scheduledEndTime: string,
    actualStartTime: Option<string>,
    actualEndTime: Option<string>,
    delay: Option<int>,
    canceled: Option<int>,
    busId: Option<string>,
    blockId: string)

  /** How long after its last observation a trip that still has a next stop counts as ended: 30 minutes. */
  const StaleEndSeconds: int := 60 * 30

  /** JavaScript truthiness of a nullable string: present and not empty. */
  predicate Truthy(o: Option<string>)
  {
    o.Some? && o.value != ""
  }

  /**
   * Whether the last observation of a trip stands as its end: it exists,
   * and either the bus has no next stop or the current service time
   * `now` is more than 30 minutes past it. `secondsOf` reads a time
   * string as seconds since the start of the service day.
   */
  predicate EndReported(row: BlockDataRow, now: int, secondsOf: string -> int)
    ensures !Truthy(row.nextStopId) ==> (EndReported(row, now, secondsOf) <==> Truthy(row.actualEndTime))
  {
    Truthy(row.actualEndTime)
      && (!Truthy(row.nextStopId) || now - secondsOf(row.actualEndTime.value) > StaleEndSeconds)
  }

  /** The record built for one row. */
  function ToTripDetails(row: BlockDataRow, now: int, secondsOf: string -> int): (t: TripDetails)
    ensures t.tripId == row.tripId && t.headSign == row.tripHeadsign
    ensures t.routeDirection == row.routeDirection
    ensures t.scheduledStartTime == row.startTime && t.scheduledEndTime == row.endTime
    ensures t.delay == row.delayMin && t.canceled == row.scheduleRelationship
    ensures t.busId == row.busId && t.blockId == row.blockId
    ensures t.actualStartTime.Some? <==> Truthy(row.actualStartTime)
    ensures t.actualStartTime.Some? ==> t.actualStartTime == row.actualStartTime
    ensures t.actualEndTime.Some? <==> EndReported(row, now, secondsOf)
    ensures t.actualEndTime.Some? ==> t.actualEndTime == row.actualEndTime
  {
    TripDetails(
      row.tripId,
      row.tripHeadsign,
      row.routeDirection,
      row.startTime,
      row.endTime,
      if Truthy(row.actualStartTime) then row.actualStartTime else None,
      if EndReported(row, now, secondsOf) then row.actualEndTime else None,
      row.delayMin,
      row.scheduleRelationship,
      row.busId,
      row.blockId)
  }

  /** `blockData.map(...)`: one record per row, in the order of the rows. */
  function GetRouteData(rows: seq<BlockDataRow>, now: int, secondsOf: string -> int): (r: seq<TripDetails>)
    ensures |r| == |rows|
    ensures forall i | 0 <= i < |rows| :: r[i] == ToTripDetails(rows[i], now, secondsOf)
  {
    if rows == [] then [] else [ToTripDetails(rows[0], now, secondsOf)] + GetRouteData(rows[1..], now, secondsOf)
  }

  // ---------------------------------------------------------------------
  // Properties of the end rule
  // ---------------------------------------------------------------------

  /** A trip whose bus has no next stop ends at its last observation, whatever the time. */
  lemma EndWithoutNextStop(row: BlockDataRow, now: int, secondsOf: string -> int)
    requires Truthy(row.actualEndTime) && !Truthy(row.nextStopId)
    ensures ToTripDetails(row, now, secondsOf).actualEndTime == row.actualEndTime
  {
  }

  /**
   * A trip whose bus still has a next stop is reported as ended only once
   * the current time is more than 30 minutes past its last observation:
   * at exactly 30 minutes it is not.
   */
  lemma EndWithNextStop(row: BlockDataRow, now: int, secondsOf: string -> int)
    requires Truthy(row.actualEndTime) && Truthy(row.nextStopId)
    ensures ToTripDetails(row, now, secondsOf).actualEndTime.Some?
      <==> now > secondsOf(row.actualEndTime.value) + StaleEndSeconds
  {
  }

  /** Once reported, an end stays reported at every later time. */
  lemma EndReportedStaysReported(row: BlockDataRow, now: int, later: int, secondsOf: string -> int)
    requires now <= later
    requires ToTripDetails(row, now, secondsOf).actualEndTime.Some?
    ensures ToTripDetails(row, later, secondsOf).actualEndTime == row.actualEndTime
  {
  }

  /** The time only decides the end: two calls at different times agree on everything else. */
  lemma OnlyTheEndDependsOnTime(row: BlockDataRow, now: int, later: int, secondsOf: string -> int)
    ensures ToTripDetails(row, now, secondsOf).(actualEndTime := None)
      == ToTripDetails(row, later, secondsOf).(actualEndTime := None)
  {
  }
}

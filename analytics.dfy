// AnalyticsApiImpl: which trips an analytics query covers, and the two
// ways the service counts them (by status group, and by day).
module AnalyticsApi {
  import opened Common
  import opened Model
  import opened TripRules
  import opened Dates
  import opened ShiftApi
  import opened TripApi

  /** The zone query's date filter: the trip's date at the zone's offset in the half-open range [lo, hi). */
  function OnDatesAt(lo: int, hi: int, offsetHours: int): TripRequest -> bool
  {
    (t: TripRequest) => lo <= DateAt(PrimaryTime(t), offsetHours) < hi
  }

  /** The live and archived trips that start from or end in a zone, each once. */
  function ZoneCandidates(live: seq<TripRequest>, archive: seq<TripRequest>, z: Option<Uuid>): seq<TripRequest>
  {
    Distinct(Filter(live, FromZone(z)) + Filter(live, ToZone(z)) +
             Filter(archive, FromZone(z)) + Filter(archive, ToZone(z)))
  }

  /**
   * The private `getTrips`. With a zone id: nothing for an unknown zone,
   * otherwise the zone's candidates dated at the zone's offset, where an
   * unset offset (unboxing null) or one beyond 18 hours throws as soon as
   * the first candidate reaches the filter. Without one: every live and
   * archived trip dated at its own offset.
   */
  function AnalyticsTrips(live: seq<TripRequest>, archive: seq<TripRequest>, zones: map<Uuid, Zone>,
                          from: Option<int>, to: Option<int>, zoneId: Option<Uuid>): Result<seq<TripRequest>>
  {
    var dates := MinMaxDates(from, to);
    if zoneId.None? then Ok(Filter(live + archive, InDates(dates.0, dates.1)))
    else if zoneId.value !in zones then Ok([])
    else
      var zone := zones[zoneId.value];
      var candidates := ZoneCandidates(live, archive, zone.id);
      if candidates == [] then Ok([])
      else if zone.timeZone.None? then Err(NullPointer)
      else
        var offset :- OffsetOfHours(zone.timeZone.value);
        Ok(Filter(candidates, OnDatesAt(dates.0, dates.1, offset)))
  }

  /** What the query returns, and when it throws. */
  lemma AnalyticsTripsCorrect(live: seq<TripRequest>, archive: seq<TripRequest>, zones: map<Uuid, Zone>,
                              from: Option<int>, to: Option<int>, zoneId: Option<Uuid>)
    ensures var r := AnalyticsTrips(live, archive, zones, from, to, zoneId);
            var dates := MinMaxDates(from, to);
            (r.Err? <==> zoneId.Some? && zoneId.value in zones &&
                         ZoneCandidates(live, archive, zones[zoneId.value].id) != [] &&
                         (zones[zoneId.value].timeZone.None? ||
                          !(-18 <= zones[zoneId.value].timeZone.value <= 18))) &&
            (zoneId.None? ==>
               r.Ok? && forall t :: t in r.value <==> (t in live || t in archive) &&
                                                      dates.0 <= DateAt(PrimaryTime(t), 0) < dates.1) &&
            (zoneId.Some? && zoneId.value !in zones ==> r == Ok([])) &&
            (zoneId.Some? && zoneId.value in zones && r.Ok? ==>
               var zone := zones[zoneId.value];
               NoDuplicates(r.value) &&
               forall t :: t in r.value <==>
                             (t in live || t in archive) &&
                             (t.fromZoneId == zone.id || t.toZoneId == zone.id) &&
                             dates.0 <= DateAt(PrimaryTime(t), GetOrDefault(zone.timeZone, 0)) < dates.1)
  {
    if zoneId.None? {
      var dates := MinMaxDates(from, to);
      FilterMembers(live + archive, InDates(dates.0, dates.1));
    } else if zoneId.value in zones {
      ZoneTripsCorrect(live, archive, zones, from, to, zoneId.value);
    }
  }

  /** The zone's candidates: each trip of either list that starts from or ends in the zone, once. */
  lemma ZoneCandidatesMembers(live: seq<TripRequest>, archive: seq<TripRequest>, z: Option<Uuid>)
    ensures var candidates := ZoneCandidates(live, archive, z);
            NoDuplicates(candidates) &&
            forall t :: t in candidates <==> (t in live || t in archive) && (t.fromZoneId == z || t.toZoneId == z)
  {
    var merged := Filter(live, FromZone(z)) + Filter(live, ToZone(z)) +
                  Filter(archive, FromZone(z)) + Filter(archive, ToZone(z));
    DistinctProperties(merged);
    FilterMembers(live, FromZone(z));
    FilterMembers(live, ToZone(z));
    FilterMembers(archive, FromZone(z));
    FilterMembers(archive, ToZone(z));
  }

  /** The query for a known zone. */
  lemma ZoneTripsCorrect(live: seq<TripRequest>, archive: seq<TripRequest>, zones: map<Uuid, Zone>,
                         from: Option<int>, to: Option<int>, zoneId: Uuid)
    requires zoneId in zones
    ensures var r := AnalyticsTrips(live, archive, zones, from, to, Some(zoneId));
            var dates := MinMaxDates(from, to);
            var zone := zones[zoneId];
            (r.Err? <==> ZoneCandidates(live, archive, zone.id) != [] &&
                         (zone.timeZone.None? || !(-18 <= zone.timeZone.value <= 18))) &&
            (r.Ok? ==>
               NoDuplicates(r.value) &&
               forall t :: t in r.value <==>
                             (t in live || t in archive) &&
                             (t.fromZoneId == zone.id || t.toZoneId == zone.id) &&
                             dates.0 <= DateAt(PrimaryTime(t), GetOrDefault(zone.timeZone, 0)) < dates.1)
  {
    var r := AnalyticsTrips(live, archive, zones, from, to, Some(zoneId));
    var dates := MinMaxDates(from, to);
    var zone := zones[zoneId];
    var candidates := ZoneCandidates(live, archive, zone.id);
    ZoneCandidatesMembers(live, archive, zone.id);
    if r.Ok? && candidates != [] {
      var offset := zone.timeZone.value;
      assert r.value == Filter(candidates, OnDatesAt(dates.0, dates.1, offset));
      FilterMembers(candidates, OnDatesAt(dates.0, dates.1, offset));
      NoDuplicatesKept(candidates, OnDatesAt(dates.0, dates.1, offset), (a: TripRequest, b: TripRequest) => true);
    }
  }

  // ---------------------------------------------------------------------
  // getAggregatedTripCounts

  /** The five numbers of the aggregated-counts response. */
  datatype TripCounts = TripCounts(notStarted: nat, enRoute: nat, active: nat, complete: nat, cancel: nat)

  function HasStatus(status: TripStatus): TripRequest -> bool
  {
    (t: TripRequest) => t.status == Some(status)
  }

  /** How many of the trips have the status: `getOrDefault(status, 0)` of the grouping. */
  function CountOf(trips: seq<TripRequest>, status: TripStatus): nat
  {
    |Filter(trips, HasStatus(status))|
  }

  /**
   * Grouping by status throws on the first trip without one; otherwise the
   * counts are summed into the five response groups. NEEDS_ASSIGNMENT is
   * in no group.
   */
  function AggregatedCounts(trips: seq<TripRequest>): Result<TripCounts>
  {
    if exists i :: 0 <= i < |trips| && trips[i].status.None? then Err(NullPointer)
    else Ok(TripCounts(
      CountOf(trips, New) + CountOf(trips, DriverAssigned),
      CountOf(trips, DriverEnRoute),
      CountOf(trips, DriverArrived) + CountOf(trips, TripInProgress),
      CountOf(trips, TripComplete),
      CountOf(trips, CancelByRider) + CountOf(trips, CancelByDriverRiderLate) +
        CountOf(trips, CancelByDriverRiderNotPresent)))
  }

  function AggregatedTripCounts(live: seq<TripRequest>, archive: seq<TripRequest>, zones: map<Uuid, Zone>,
                                from: Option<int>, to: Option<int>, zoneId: Option<Uuid>): Result<TripCounts>
  {
    var trips :- AnalyticsTrips(live, archive, zones, from, to, zoneId);
    AggregatedCounts(trips)
  }

  lemma CountOfCons(trips: seq<TripRequest>, status: TripStatus)
    requires trips != []
    ensures CountOf(trips, status) == (if trips[0].status == Some(status) then 1 else 0) + CountOf(trips[1..], status)
  {
  }

  /** The per-status counts of trips that all have a status add up to the number of trips. */
  lemma {:induction false} StatusCountsPartition(trips: seq<TripRequest>)
    requires forall i :: 0 <= i < |trips| ==> trips[i].status.Some?
    ensures CountOf(trips, New) + CountOf(trips, DriverAssigned) + CountOf(trips, DriverEnRoute) +
            CountOf(trips, DriverArrived) + CountOf(trips, TripInProgress) + CountOf(trips, TripComplete) +
            CountOf(trips, CancelByRider) + CountOf(trips, CancelByDriverRiderLate) +
            CountOf(trips, CancelByDriverRiderNotPresent) + CountOf(trips, NeedsAssignment) == |trips|
  {
    if trips != [] {
      assert forall i :: 0 <= i < |trips[1..]| ==> trips[1..][i] == trips[i + 1];
      StatusCountsPartition(trips[1..]);
      CountOfCons(trips, New);
      CountOfCons(trips, DriverAssigned);
      CountOfCons(trips, DriverEnRoute);
      CountOfCons(trips, DriverArrived);
      CountOfCons(trips, TripInProgress);
      CountOfCons(trips, TripComplete);
      CountOfCons(trips, CancelByRider);
      CountOfCons(trips, CancelByDriverRiderLate);
      CountOfCons(trips, CancelByDriverRiderNotPresent);
      CountOfCons(trips, NeedsAssignment);
      assert trips[0].status.Some?;
      match trips[0].status.value
      case New =>
      case DriverAssigned =>
      case DriverEnRoute =>
      case DriverArrived =>
      case TripInProgress =>
      case TripComplete =>
      case CancelByRider =>
      case CancelByDriverRiderLate =>
      case CancelByDriverRiderNotPresent =>
      case NeedsAssignment =>
    }
  }

  /**
   * The response's groups are disjoint and cover every trip except those
   * that need assignment; the counts fail exactly when a trip has no status.
   */
  lemma AggregatedCountsCorrect(trips: seq<TripRequest>)
    ensures var r := AggregatedCounts(trips);
            (r.Err? <==> exists i :: 0 <= i < |trips| && trips[i].status.None?) &&
            (r.Err? ==> r.error == NullPointer) &&
            (r.Ok? ==> r.value.notStarted + r.value.enRoute + r.value.active + r.value.complete +
                       r.value.cancel + CountOf(trips, NeedsAssignment) == |trips|) &&
            (r.Ok? ==> r.value.enRoute == CountOf(trips, DriverEnRoute) &&
                       r.value.complete == CountOf(trips, TripComplete))
  {
    if forall i :: 0 <= i < |trips| ==> trips[i].status.Some? {
      StatusCountsPartition(trips);
    }
  }

  // ---------------------------------------------------------------------
  // getTripCounts

  /** The schedule-type filter: no type asked for, or the trip's type equals it. */
  function ScheduleMatches(scheduleType: Option<nat>): TripRequest -> bool
  {
    (t: TripRequest) => scheduleType.None? || t.scheduleType == scheduleType
  }

  /** The date a trip is counted under: its primary time's date at its own offset. */
  function TripDay(t: TripRequest): int
  {
    DateAt(PrimaryTime(t), 0)
  }

  function OnDay(day: int): TripRequest -> bool
  {
    (t: TripRequest) => TripDay(t) == day
  }

  /** The grouping by date with counting: one entry per date that occurs. */
  function DayCounts(trips: seq<TripRequest>): map<int, nat>
  {
    if trips == [] then map[]
    else
      var rest := DayCounts(trips[1..]);
      var d := TripDay(trips[0]);
      rest[d := (if d in rest then rest[d] else 0) + 1]
  }

  /** A date is a key exactly when some trip falls on it, and its count is the number of such trips. */
  lemma {:induction false} DayCountsCorrect(trips: seq<TripRequest>)
    ensures forall d :: d in DayCounts(trips) <==> exists t :: t in trips && TripDay(t) == d
    ensures forall d :: d in DayCounts(trips) ==> DayCounts(trips)[d] == |Filter(trips, OnDay(d))| >= 1
  {
    if trips != [] {
      DayCountsCorrect(trips[1..]);
      var m := DayCounts(trips);
      var rest := DayCounts(trips[1..]);
      var d0 := TripDay(trips[0]);
      assert m == rest[d0 := (if d0 in rest then rest[d0] else 0) + 1];
      forall d
        ensures d in m <==> exists t :: t in trips && TripDay(t) == d
      {
        if d == d0 {
          assert trips[0] in trips;
        } else {
          if exists t :: t in trips && TripDay(t) == d {
            var t :| t in trips && TripDay(t) == d;
            assert t == trips[0] || t in trips[1..];
          }
          if d in rest {
            var t :| t in trips[1..] && TripDay(t) == d;
            assert t in trips;
          }
        }
      }
      forall d | d in m
        ensures m[d] == |Filter(trips, OnDay(d))| >= 1
      {
        assert Filter(trips, OnDay(d)) ==
               (if OnDay(d)(trips[0]) then [trips[0]] else []) + Filter(trips[1..], OnDay(d));
        if d != d0 {
          assert d in rest;
        } else if d0 !in rest {
          assert !exists t :: t in trips[1..] && TripDay(t) == d;
          FilterNone(trips[1..], OnDay(d));
        }
      }
    }
  }

  /** getTripCounts: the covered trips of the asked schedule type, counted per date. */
  function TripCountsByDay(live: seq<TripRequest>, archive: seq<TripRequest>, zones: map<Uuid, Zone>,
                           from: Option<int>, to: Option<int>, zoneId: Option<Uuid>,
                           scheduleType: Option<nat>): Result<map<int, nat>>
  {
    var trips :- AnalyticsTrips(live, archive, zones, from, to, zoneId);
    Ok(DayCounts(Filter(trips, ScheduleMatches(scheduleType))))
  }

  /** Each reported date counts the covered trips of that schedule type whose date it is. */
  lemma TripCountsByDayCorrect(live: seq<TripRequest>, archive: seq<TripRequest>, zones: map<Uuid, Zone>,
                               from: Option<int>, to: Option<int>, zoneId: Option<Uuid>,
                               scheduleType: Option<nat>)
    ensures var r := TripCountsByDay(live, archive, zones, from, to, zoneId, scheduleType);
            var q := AnalyticsTrips(live, archive, zones, from, to, zoneId);
            (r.Ok? <==> q.Ok?) &&
            (r.Ok? ==>
               (forall d :: d in r.value <==>
                              exists t :: t in q.value && ScheduleMatches(scheduleType)(t) && TripDay(t) == d) &&
               (forall d :: d in r.value ==>
                              r.value[d] == |Filter(Filter(q.value, ScheduleMatches(scheduleType)), OnDay(d))|))
  {
    var q := AnalyticsTrips(live, archive, zones, from, to, zoneId);
    if q.Ok? {
      var kept := Filter(q.value, ScheduleMatches(scheduleType));
      DayCountsCorrect(kept);
      FilterMembers(q.value, ScheduleMatches(scheduleType));
    }
  }
}

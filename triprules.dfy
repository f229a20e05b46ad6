// TripUtils: the primary time of a trip, the heuristic that picks a
// rider's active trip, the zone lookup and the validation of a new trip
// request. Repository lookups are passed in as maps and sequences.
module TripRules {
  import opened Common
  import opened Model

  /** `getPrimaryTimeConstraint`: the primary constraint's time, or MAX minus one year when either is unset. */
  function PrimaryTime(t: TripRequest): (time: int)
    ensures t.primaryTimeConstraint.Some? && t.primaryTimeConstraint.value.time.Some? ==>
              time == t.primaryTimeConstraint.value.time.value
    ensures t.primaryTimeConstraint.None? || t.primaryTimeConstraint.value.time.None? ==>
              time == MaxMinusOneYear
  {
    GetOrDefault(GetOrDefault(t.primaryTimeConstraint, TimeConstraint(None, Some(MaxMinusOneYear))).time,
                 MaxMinusOneYear)
  }

  /** The statuses `isActive` lists; a null status is read as NEW. */
  const ActiveStatuses: set<TripStatus> :=
    {New, DriverAssigned, DriverEnRoute, DriverArrived, TripInProgress,
     CancelByDriverRiderLate, CancelByDriverRiderNotPresent}

  function LastUpdatedOrDefault(t: TripRequest): int
  {
    GetOrDefault(t.lastUpdated, MaxMinusOneYear)
  }

  /**
   * `isActive(request, time)`: an active status, and the primary time
   * within two whole (truncated) hours of `time`, or else `lastUpdated`
   * within two whole hours when the status as stored is not NEW.
   */
  predicate IsActive(t: TripRequest, now: int)
  {
    GetOrDefault(t.status, New) in ActiveStatuses &&
    (Abs(HoursBetween(PrimaryTime(t), now)) <= 2 ||
     (Abs(HoursBetween(LastUpdatedOrDefault(t), now)) <= 2 && t.status != Some(New)))
  }

  /** The truncated window is exactly a gap of less than three hours, on either side. */
  lemma IsActiveWindow(t: TripRequest, now: int)
    ensures IsActive(t, now) <==>
              GetOrDefault(t.status, New) in ActiveStatuses &&
              (Abs(now - PrimaryTime(t)) < 3 * NanosPerHour ||
               (t.status != Some(New) && Abs(now - LastUpdatedOrDefault(t)) < 3 * NanosPerHour))
  {
    WithinTwoHours(PrimaryTime(t), now);
    WithinTwoHours(LastUpdatedOrDefault(t), now);
  }

  /** Completed, rider-cancelled and unassigned trips are never active. */
  lemma NeverActive(t: TripRequest, now: int)
    requires t.status == Some(TripComplete) || t.status == Some(CancelByRider) || t.status == Some(NeedsAssignment)
    ensures !IsActive(t, now)
  {
  }

  /** A NEW trip is active only through its primary time; `lastUpdated` does not count for it. */
  lemma NewActiveOnlyByPrimaryTime(t: TripRequest, now: int)
    requires t.status == Some(New)
    ensures IsActive(t, now) <==> Abs(now - PrimaryTime(t)) < 3 * NanosPerHour
  {
    IsActiveWindow(t, now);
  }

  /**
   * A trip with no status counts as NEW for the status test but, the
   * stored status not being NEW, its `lastUpdated` window applies too.
   */
  lemma NullStatusUsesLastUpdated(t: TripRequest, now: int)
    requires t.status.None?
    requires Abs(now - LastUpdatedOrDefault(t)) < 3 * NanosPerHour
    ensures IsActive(t, now)
  {
    IsActiveWindow(t, now);
  }

  /** Comparator.comparing(getPrimaryTimeConstraint) as a less-or-equal. */
  predicate ByPrimaryTime(a: TripRequest, b: TripRequest)
  {
    PrimaryTime(a) <= PrimaryTime(b)
  }

  /** The order by primary time is total and transitive. */
  lemma ByPrimaryTimeTotal()
    ensures TotalPreorder(ByPrimaryTime)
  {
  }

  /**
   * `getActiveTripForRider(riderId, now)`, given the rider's trips in
   * repository order: the active trip with the least primary time
   * (Stream.min keeps the first of equals), or null.
   */
  function ActiveTripForRider(riderTrips: seq<TripRequest>, now: int): (r: Option<TripRequest>)
  {
    MinBy(Filter(riderTrips, t => IsActive(t, now)), ByPrimaryTime)
  }

  /**
   * The result is null exactly when none of the rider's trips is active;
   * otherwise it is one of them, active, and no active trip has an
   * earlier primary time.
   */
  lemma ActiveTripForRiderCorrect(riderTrips: seq<TripRequest>, now: int)
    ensures ActiveTripForRider(riderTrips, now).None? <==> forall t :: t in riderTrips ==> !IsActive(t, now)
    ensures var r := ActiveTripForRider(riderTrips, now);
            r.Some? ==> r.value in riderTrips && IsActive(r.value, now) &&
                        forall t :: t in riderTrips && IsActive(t, now) ==> PrimaryTime(r.value) <= PrimaryTime(t)
  {
    var active := Filter(riderTrips, t => IsActive(t, now));
    FilterMembers(riderTrips, t => IsActive(t, now));
    if active != [] {
      assert active[0] in active;
      assert TotalPreorder(ByPrimaryTime);
      MinFromIsLeast(active[0], active[1..], ByPrimaryTime);
      forall t | t in riderTrips && IsActive(t, now)
        ensures PrimaryTime(ActiveTripForRider(riderTrips, now).value) <= PrimaryTime(t)
      {
        assert t in active;
        if t != active[0] { assert t in active[1..]; }
      }
    }
  }

  // ---------------------------------------------------------------------
  // setZones and validateTripRequest

  /** `placeRepository.findById(id).map(Place::getZoneId).orElse(null)` for a non-null id. */
  function ZoneOf(places: map<Uuid, Place>, id: Uuid): Option<Uuid>
  {
    if id in places then places[id].zoneId else None
  }

  /**
   * `setZones`: the zones of the two locations; `findById(null)` throws
   * IllegalArgumentException, so both location ids must be set.
   */
  function SetZones(t: TripRequest, places: map<Uuid, Place>): (r: Result<TripRequest>)
    ensures r.Ok? <==> t.fromLocationId.Some? && t.toLocationId.Some?
    ensures r.Err? ==> r.error == IllegalArgument
    ensures r.Ok? ==> r.value.fromZoneId == ZoneOf(places, t.fromLocationId.value) &&
                      r.value.toZoneId == ZoneOf(places, t.toLocationId.value) &&
                      r.value.(fromZoneId := t.fromZoneId, toZoneId := t.toZoneId) == t
  {
    if t.fromLocationId.None? || t.toLocationId.None? then Err(IllegalArgument)
    else Ok(t.(fromZoneId := ZoneOf(places, t.fromLocationId.value),
               toZoneId := ZoneOf(places, t.toLocationId.value)))
  }

  /**
   * The zones a rider may travel from or to: the origin zones of the
   * user's groups that exist (a group without one contributes null) and
   * the user's own zones.
   */
  function AllowedZones(user: User, groups: seq<Group>): (zones: set<Option<Uuid>>)
    ensures forall z :: z in GetOrDefault(user.zones, []) ==> Some(z) in zones
    ensures forall i :: 0 <= i < |groups| && groups[i].id.Some? && groups[i].id.value in GetOrDefault(user.groups, []) ==>
              groups[i].originZoneId in zones
  {
    var ids := GetOrDefault(user.groups, []);
    (set i | 0 <= i < |groups| && groups[i].id.Some? && groups[i].id.value in ids :: groups[i].originZoneId) +
    (set z | z in GetOrDefault(user.zones, []) :: Some(z))
  }

  /**
   * `validateTripRequest(tripRequest)` at instant `now`, with the place,
   * user and group repositories as inputs: the zones are set first, then
   * the rider must exist, one end must lie in an allowed zone and the
   * primary time must not be more than 30 seconds in the past.
   */
  function ValidateTripRequest(t: TripRequest, places: map<Uuid, Place>, users: map<Uuid, User>,
                               groups: seq<Group>, now: int): (r: Result<TripRequest>)
    ensures r == Err(IllegalArgument) <==> t.fromLocationId.None? || t.toLocationId.None? || t.riderId.None?
    ensures r == Err(InvalidTripRequest("User does not exist")) <==>
              t.fromLocationId.Some? && t.toLocationId.Some? && t.riderId.Some? && t.riderId.value !in users
    ensures r.Ok? <==>
              t.fromLocationId.Some? && t.toLocationId.Some? && t.riderId.Some? && t.riderId.value in users &&
              (ZoneOf(places, t.fromLocationId.value) in AllowedZones(users[t.riderId.value], groups) ||
               ZoneOf(places, t.toLocationId.value) in AllowedZones(users[t.riderId.value], groups)) &&
              PrimaryTime(t) >= now - 30 * NanosPerSecond
    ensures r.Ok? ==> r == SetZones(t, places)
  {
    var tz :- SetZones(t, places);
    if tz.riderId.None? then Err(IllegalArgument)
    else if tz.riderId.value !in users then Err(InvalidTripRequest("User does not exist"))
    else
      var zones := AllowedZones(users[tz.riderId.value], groups);
      if tz.fromZoneId !in zones && tz.toZoneId !in zones then
        Err(InvalidTripRequest("User zones don't contain to or from location"))
      else if PrimaryTime(tz) < now - 30 * NanosPerSecond then
        Err(InvalidTripRequest("Request has unset time or is in the past"))
      else Ok(tz)
  }

  /** A request with no primary time is far in the future, so the time test never rejects it. */
  lemma UnsetTimeNotRejected(t: TripRequest, places: map<Uuid, Place>, users: map<Uuid, User>,
                             groups: seq<Group>, now: int)
    requires t.primaryTimeConstraint.None?
    requires now <= MaxMinusOneYear
    ensures ValidateTripRequest(t, places, users, groups, now) != Err(InvalidTripRequest("Request has unset time or is in the past"))
  {
  }
}

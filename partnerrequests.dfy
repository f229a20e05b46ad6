// Partner transportation requests: a partner facility asks for a ride for
// a person; scheduling it registers the person as a rider with a home
// place, books a trip home -> facility and a return trip one hour later,
// and marks the request scheduled.
module PartnerRequestApi {
  import opened Common
  import opened Model
  import opened Store
  import opened MapService
  import UserUtils

  const RequestNotFound: Error := NotFound("Partner transportation request not found")
  const FacilityNotFound: Error := NotFound("Facility not found")

  // ---------------------------------------------------------------------
  // scheduleTripFromPartnerTransportationRequest

  /** The rider's private home place before geocoding. */
  function HomePlace(request: PartnerTransportationRequest, placeId: Uuid, userId: Uuid): (p: Place)
    ensures p.id == Some(placeId) && p.userId == Some(userId) && p.address == request.address
    ensures p.name == Some("Home") && p.isPrivate == Some(true)
  {
    BlankPlace.(id := Some(placeId), address := request.address, name := Some("Home"), isPrivate := Some(true),
                userId := Some(userId))
  }

  /** `Stream.of(a, b).filter(Objects::nonNull).collect(toSet())`, listed home zone first. */
  function NonNullZones(a: Option<Uuid>, b: Option<Uuid>): (r: seq<Uuid>)
    ensures NoDuplicates(r)
    ensures forall z :: z in r <==> a == Some(z) || b == Some(z)
  {
    if a.Some? && b.Some? && a != b then [a.value, b.value]
    else if a.Some? then [a.value]
    else if b.Some? then [b.value]
    else []
  }

  /** The rider created for the request. */
  function NewRider(request: PartnerTransportationRequest, home: Place, facility: Place, userId: Uuid,
                    userName: string, now: int): User
  {
    BlankUser.(id := Some(userId), firstName := request.firstName, lastName := request.lastName,
               userName := Some(userName), email := request.email, address := request.address,
               primaryPhone := request.primaryPhone, zones := Some(NonNullZones(home.zoneId, facility.zoneId)),
               notificationType := Some(Sms), roles := Some([Role.Rider]), active := Some(true), created := Some(now))
  }

  /** The trip from home to the facility, linked to the request. */
  function OutboundTrip(request: PartnerTransportationRequest, constraint: TimeConstraint, home: Place,
                        facility: Place, userId: Uuid, tripId: Uuid, now: int): TripRequest
  {
    BlankTrip.(id := Some(tripId), riderId := Some(userId), partnerTransportationRequestId := request.id,
               tripRequestType := Some(Passenger), passengerCount := Some(1), created := Some(now),
               primaryTimeConstraint := Some(constraint), fromLocationId := home.id, fromZoneId := home.zoneId,
               toLocationId := facility.id, toZoneId := facility.zoneId, status := Some(New))
  }

  /**
   * `timeConstraint.getTime().plusHours(1)`: a NullPointerException for no
   * time, a DateTimeException past the supported range.
   */
  function ReturnTime(constraint: TimeConstraint): (r: Result<int>)
    ensures constraint.time.None? ==> r == Err(NullPointer)
    ensures constraint.time.Some? && constraint.time.value + NanosPerHour <= MaxInstant ==>
              r == Ok(constraint.time.value + NanosPerHour)
    ensures constraint.time.Some? && constraint.time.value + NanosPerHour > MaxInstant ==> r == Err(DateTime)
  {
    if constraint.time.None? then Err(NullPointer)
    else if constraint.time.value + NanosPerHour > MaxInstant then Err(DateTime)
    else Ok(constraint.time.value + NanosPerHour)
  }

  /** The trip from the facility back home at `returnTime`, with no link to the request. */
  function ReturnTrip(constraint: TimeConstraint, returnTime: int, home: Place, facility: Place, userId: Uuid,
                      tripId: Uuid, now: int): TripRequest
  {
    BlankTrip.(id := Some(tripId), riderId := Some(userId), tripRequestType := Some(Passenger),
               passengerCount := Some(1), created := Some(now),
               primaryTimeConstraint := Some(TimeConstraint(constraint.constraintType, Some(returnTime))),
               fromLocationId := facility.id, fromZoneId := facility.zoneId, toLocationId := home.id,
               toZoneId := home.zoneId, status := Some(New))
  }

  /** The request once scheduled. */
  function Scheduled(request: PartnerTransportationRequest, tripId: Uuid): (r: PartnerTransportationRequest)
    ensures r.tripId == Some(tripId) && r.status == Some(PartnerRequestStatus.Scheduled)
    ensures r.(tripId := request.tripId, status := request.status) == request
  {
    request.(tripId := Some(tripId), status := Some(PartnerRequestStatus.Scheduled))
  }

  /**
   * The two trips make a round trip for the new rider: the return leg
   * reverses the outbound leg's places and zones, keeps its constraint
   * type one hour later, and only the outbound leg points at the request.
   */
  lemma RoundTripLegs(request: PartnerTransportationRequest, constraint: TimeConstraint, home: Place,
                      facility: Place, userId: Uuid, outId: Uuid, backId: Uuid, now: int)
    requires ReturnTime(constraint).Ok?
    ensures var out := OutboundTrip(request, constraint, home, facility, userId, outId, now);
            var back := ReturnTrip(constraint, ReturnTime(constraint).value, home, facility, userId, backId, now);
            out.fromLocationId == back.toLocationId == home.id && out.toLocationId == back.fromLocationId == facility.id &&
            out.fromZoneId == back.toZoneId && out.toZoneId == back.fromZoneId &&
            out.riderId == back.riderId == Some(userId) &&
            out.status == back.status == Some(New) && out.passengerCount == back.passengerCount == Some(1) &&
            out.tripRequestType == back.tripRequestType == Some(Passenger) &&
            out.primaryTimeConstraint.value.constraintType == back.primaryTimeConstraint.value.constraintType &&
            back.primaryTimeConstraint.value.time.value == out.primaryTimeConstraint.value.time.value + NanosPerHour &&
            out.partnerTransportationRequestId == request.id && back.partnerTransportationRequestId.None?
  {
  }

  /** The rider is a plain rider in the zones of home and facility that are known. */
  lemma NewRiderProperties(request: PartnerTransportationRequest, home: Place, facility: Place, userId: Uuid,
                           userName: string, now: int)
    ensures var u := NewRider(request, home, facility, userId, userName, now);
            u.roles == Some([Role.Rider]) && u.notificationType == Some(Sms) && u.active == Some(true) &&
            u.password.None? && u.partnerId.None? &&
            (forall z :: z in u.zones.value <==> home.zoneId == Some(z) || facility.zoneId == Some(z)) &&
            NoDuplicates(u.zones.value)
  {
  }

  /**
   * scheduleTripFromPartnerTransportationRequest. The fresh ids stand for
   * the random UUIDs, `now` for the clock and `lookup` for the geocoder.
   * Every failure happens before the first save; on success the rider,
   * the home place, both trips and the scheduled request are saved.
   */
  method ScheduleTrip(db: Repositories, requestId: Uuid, constraint: TimeConstraint, userId: Uuid, placeId: Uuid,
                      outId: Uuid, backId: Uuid, now: int, lookup: Geocoder)
    returns (r: Result<PartnerTransportationRequest>)
    requires db.Valid()
    modifies db`users, db`places, db`trips, db`partnerRequests
    ensures db.Valid()
    ensures requestId !in old(db.partnerRequests) ==> r == Err(RequestNotFound)
    ensures (requestId in old(db.partnerRequests) && old(db.partnerRequests)[requestId].facilityId.None?) ==>
              r == Err(IllegalArgument)
    ensures (requestId in old(db.partnerRequests) && old(db.partnerRequests)[requestId].facilityId.Some? &&
             old(db.partnerRequests)[requestId].facilityId.value !in old(db.places)) ==>
              r == Err(FacilityNotFound)
    ensures (requestId in old(db.partnerRequests) && old(db.partnerRequests)[requestId].facilityId.Some? &&
             old(db.partnerRequests)[requestId].facilityId.value in old(db.places)) ==>
              (ReturnTime(constraint).Err? ==> r == Err(ReturnTime(constraint).error)) &&
              (ReturnTime(constraint).Ok? ==> r == Ok(Scheduled(old(db.partnerRequests)[requestId], outId)))
    ensures r.Err? ==> db.users == old(db.users) && db.places == old(db.places) && db.trips == old(db.trips) &&
                       db.partnerRequests == old(db.partnerRequests)
    ensures r.Ok? ==>
              var request := old(db.partnerRequests)[requestId];
              var facility := old(db.places)[request.facilityId.value];
              var home := Geocode(lookup, HomePlace(request, placeId, userId));
              (exists name :: UserUtils.IsGeneratedName(old(db.users), request.firstName, request.lastName, name) &&
                              db.users == old(db.users)[userId := NewRider(request, home, facility, userId, name, now)]) &&
              db.places == old(db.places)[placeId := home] &&
              db.trips == old(db.trips)[outId := OutboundTrip(request, constraint, home, facility, userId, outId, now)]
                                       [backId := ReturnTrip(constraint, ReturnTime(constraint).value, home, facility,
                                                             userId, backId, now)] &&
              db.partnerRequests == old(db.partnerRequests)[requestId := Scheduled(request, outId)] &&
              r.value == Scheduled(request, outId)
  {
    if requestId !in db.partnerRequests {
      return Err(RequestNotFound);
    }
    var request := db.partnerRequests[requestId];
    if request.facilityId.None? {
      return Err(IllegalArgument);
    }
    if request.facilityId.value !in db.places {
      return Err(FacilityNotFound);
    }
    var facility := db.places[request.facilityId.value];
    var home := Geocode(lookup, HomePlace(request, placeId, userId));
    var name := UserUtils.GenerateUsername(db, request.firstName, request.lastName);
    var user := NewRider(request, home, facility, userId, name, now);
    var outbound := OutboundTrip(request, constraint, home, facility, userId, outId, now);
    var returnTime := ReturnTime(constraint);
    if returnTime.Err? {
      return Err(returnTime.error);
    }
    var back := ReturnTrip(constraint, returnTime.value, home, facility, userId, backId, now);
    var scheduled := Scheduled(request, outId);
    SaveSchedule(db, user, home, outbound, back, scheduled);
    r := Ok(scheduled);
  }

  /** The saves that end a successful scheduling, in the order the service makes them. */
  method SaveSchedule(db: Repositories, user: User, home: Place, outbound: TripRequest, back: TripRequest,
                      scheduled: PartnerTransportationRequest)
    requires db.Valid()
    requires user.id.Some? && home.id.Some? && outbound.id.Some? && back.id.Some? && scheduled.id.Some?
    modifies db`users, db`places, db`trips, db`partnerRequests
    ensures db.Valid()
    ensures db.users == old(db.users)[user.id.value := user]
    ensures db.places == old(db.places)[home.id.value := home]
    ensures db.trips == old(db.trips)[outbound.id.value := outbound][back.id.value := back]
    ensures db.partnerRequests == old(db.partnerRequests)[scheduled.id.value := scheduled]
  {
    db.SaveUser(user);
    db.SavePlace(home);
    db.SaveTrip(outbound);
    db.SaveTrip(back);
    db.SavePartnerRequest(scheduled);
  }

  // ---------------------------------------------------------------------
  // updatePartnerTransportationRequest

  /** The stored request after an update: each non-null field of the update replaces the stored one. */
  function MergeRequest(existing: PartnerTransportationRequest, update: PartnerTransportationRequest, now: int)
    : PartnerTransportationRequest
  {
    existing.(address := Pick(update.address, existing.address),
              email := Pick(update.email, existing.email),
              facilityId := Pick(update.facilityId, existing.facilityId),
              firstName := Pick(update.firstName, existing.firstName),
              lastName := Pick(update.lastName, existing.lastName),
              notes := Pick(update.notes, existing.notes),
              primaryPhone := Pick(update.primaryPhone, existing.primaryPhone),
              status := Pick(update.status, existing.status),
              submitterUserId := Pick(update.submitterUserId, existing.submitterUserId),
              tripId := Pick(update.tripId, existing.tripId),
              lastUpdated := Some(now))
  }

  /** An update with no field set. */
  const EmptyUpdate := PartnerTransportationRequest(None, None, None, None, None, None, None, None, None, None, None, None)

  /**
   * What an update keeps and what it takes: the id stays, every field the
   * update sets wins and every field it leaves null keeps its stored value.
   */
  lemma MergeRequestFields(existing: PartnerTransportationRequest, update: PartnerTransportationRequest, now: int)
    ensures var m := MergeRequest(existing, update, now);
            m.id == existing.id && m.lastUpdated == Some(now) &&
            (update.address.Some? ==> m.address == update.address) &&
            (update.address.None? ==> m.address == existing.address) &&
            (update.email.Some? ==> m.email == update.email) &&
            (update.email.None? ==> m.email == existing.email) &&
            (update.facilityId.Some? ==> m.facilityId == update.facilityId) &&
            (update.facilityId.None? ==> m.facilityId == existing.facilityId) &&
            (update.firstName.Some? ==> m.firstName == update.firstName) &&
            (update.firstName.None? ==> m.firstName == existing.firstName) &&
            (update.lastName.Some? ==> m.lastName == update.lastName) &&
            (update.lastName.None? ==> m.lastName == existing.lastName) &&
            (update.notes.Some? ==> m.notes == update.notes) &&
            (update.notes.None? ==> m.notes == existing.notes) &&
            (update.primaryPhone.Some? ==> m.primaryPhone == update.primaryPhone) &&
            (update.primaryPhone.None? ==> m.primaryPhone == existing.primaryPhone) &&
            (update.status.Some? ==> m.status == update.status) &&
            (update.status.None? ==> m.status == existing.status) &&
            (update.submitterUserId.Some? ==> m.submitterUserId == update.submitterUserId) &&
            (update.submitterUserId.None? ==> m.submitterUserId == existing.submitterUserId) &&
            (update.tripId.Some? ==> m.tripId == update.tripId) &&
            (update.tripId.None? ==> m.tripId == existing.tripId)
  {
  }

  /** Applying the same update twice is applying it once. */
  lemma MergeRequestIdempotent(existing: PartnerTransportationRequest, update: PartnerTransportationRequest, now: int)
    ensures MergeRequest(MergeRequest(existing, update, now), update, now) == MergeRequest(existing, update, now)
  {
  }

  /** An empty update only refreshes `lastUpdated`. */
  lemma MergeRequestEmpty(existing: PartnerTransportationRequest, now: int)
    ensures MergeRequest(existing, EmptyUpdate, now) == existing.(lastUpdated := Some(now))
  {
  }

  /**
   * updatePartnerTransportationRequest: the stored request with the
   * update's non-null fields, saved and returned; a request without an id
   * is refused by `findById(null)`.
   */
  method UpdatePartnerRequest(db: Repositories, update: PartnerTransportationRequest, now: int)
    returns (r: Result<PartnerTransportationRequest>)
    requires db.Valid()
    modifies db`partnerRequests
    ensures db.Valid()
    ensures update.id.None? ==> r == Err(IllegalArgument)
    ensures update.id.Some? && update.id.value !in old(db.partnerRequests) ==> r == Err(RequestNotFound)
    ensures r.Err? ==> db.partnerRequests == old(db.partnerRequests)
    ensures (update.id.Some? && update.id.value in old(db.partnerRequests)) ==>
              var merged := MergeRequest(old(db.partnerRequests)[update.id.value], update, now);
              r == Ok(merged) && db.partnerRequests == old(db.partnerRequests)[update.id.value := merged]
  {
    if update.id.None? {
      return Err(IllegalArgument);
    }
    if update.id.value !in db.partnerRequests {
      return Err(RequestNotFound);
    }
    var merged := MergeRequest(db.partnerRequests[update.id.value], update, now);
    db.SavePartnerRequest(merged);
    r := Ok(merged);
  }
}

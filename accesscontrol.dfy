// AccessControl: the predicates the service's method-security annotations
// call. The caller is the user the authentication's principal names (if
// the lookup finds one) and the roles of its authorities.
module AccessControl {
  import opened Common
  import opened Model
  import opened TripRules

  /** The authenticated caller: `getAuthenticatedUser()` and `getAuthenticatedUserRoles()`. */
  datatype Caller = Caller(user: Option<User>, roles: seq<Role>)

  /** `getAuthenticatedUserId()`: empty without a user or when the user has no id. */
  function AuthenticatedUserId(c: Caller): Option<Uuid>
  {
    if c.user.None? then None else c.user.value.id
  }

  /** `getAuthenticatedUser().map(User::getPartnerId)`. */
  function AuthenticatedPartnerId(c: Caller): Option<Uuid>
  {
    if c.user.None? then None else c.user.value.partnerId
  }

  predicate HasRole(c: Caller, r: Role)
  {
    r in c.roles
  }

  /** ADMIN or DISPATCHER: the staff roles most predicates let through first. */
  predicate IsStaff(c: Caller)
  {
    HasRole(c, Role.Admin) || HasRole(c, Role.Dispatcher)
  }

  predicate IsPartnerStaff(c: Caller)
  {
    HasRole(c, Role.Partner) || HasRole(c, Role.PartnerCsr)
  }

  /** `isUser(Optional<UUID>)`: plain equality with the authenticated id, empty equal to empty. */
  predicate IsUser(c: Caller, userId: Option<Uuid>)
  {
    userId == AuthenticatedUserId(c)
  }

  /** `isUser(UUID)`: a null id throws UserIdMissingException. */
  function IsUserId(c: Caller, userId: Option<Uuid>): Result<bool>
  {
    if userId.None? then Err(UserIdMissing) else Ok(IsUser(c, userId))
  }

  // ---------------------------------------------------------------------
  // Users

  predicate CanAccessUsers(c: Caller)
  {
    IsStaff(c) || HasRole(c, Role.Driver)
  }

  function CanReadUser(c: Caller, userId: Option<Uuid>): Result<bool>
  {
    var self :- IsUserId(c, userId);
    Ok(self || CanAccessUsers(c))
  }

  function CanWriteUser(c: Caller, userId: Option<Uuid>): Result<bool>
  {
    var self :- IsUserId(c, userId);
    Ok(self || HasRole(c, Role.Admin))
  }

  /**
   * A null user id throws before any role is looked at; otherwise a user
   * may be read by itself or by an ADMIN, DISPATCHER or DRIVER, and
   * written by itself or an ADMIN, so whoever may write may read.
   */
  lemma UserAccessCorrect(c: Caller, userId: Option<Uuid>)
    ensures userId.None? ==> CanReadUser(c, userId) == Err(UserIdMissing) && CanWriteUser(c, userId) == Err(UserIdMissing)
    ensures userId.Some? ==>
              (CanReadUser(c, userId) == Ok(true) <==>
                 AuthenticatedUserId(c) == userId || Role.Admin in c.roles || Role.Dispatcher in c.roles || Role.Driver in c.roles) &&
              (CanWriteUser(c, userId) == Ok(true) <==> AuthenticatedUserId(c) == userId || Role.Admin in c.roles) &&
              CanReadUser(c, userId).Ok? && CanWriteUser(c, userId).Ok?
    ensures CanWriteUser(c, userId) == Ok(true) ==> CanReadUser(c, userId) == Ok(true)
  {
  }

  // ---------------------------------------------------------------------
  // Trips and shifts

  predicate CanAccessTripRequests(c: Caller)
  {
    IsStaff(c)
  }

  /** canCreateTripRequest: staff, or the trip's rider; a null rider throws. */
  function CanCreateTripRequest(c: Caller, trip: TripRequest): Result<bool>
  {
    if IsStaff(c) then Ok(true) else IsUserId(c, trip.riderId)
  }

  /** `shiftRepository.findById(id).map(Shift::getDriverId)`; a null id is refused by the lookup. */
  function ShiftDriver(shifts: map<Uuid, Shift>, shiftId: Option<Uuid>): Result<Option<Uuid>>
  {
    if shiftId.None? then Err(IllegalArgument)
    else if shiftId.value !in shifts then Ok(None)
    else Ok(shifts[shiftId.value].driverId)
  }

  /**
   * canAccessTripRequest: staff; otherwise the trip must exist and the
   * caller be its rider (a null rider throws) or, failing that, the
   * driver of its shift (a null shift id is refused by the lookup).
   */
  function CanAccessTripRequest(c: Caller, tripId: Option<Uuid>, trips: map<Uuid, TripRequest>, shifts: map<Uuid, Shift>)
    : Result<bool>
  {
    if IsStaff(c) then Ok(true)
    else if tripId.None? then Err(IllegalArgument)
    else if tripId.value !in trips then Ok(false)
    else
      var trip := trips[tripId.value];
      var rider :- IsUserId(c, trip.riderId);
      if rider then Ok(true)
      else
        var driver :- ShiftDriver(shifts, trip.shiftId);
        Ok(IsUser(c, driver))
  }

  predicate CanAccessShifts(c: Caller)
  {
    IsStaff(c)
  }

  /** canAccessShift: staff, or the caller's id equals the shift's driver, an unknown shift giving an empty driver. */
  function CanAccessShift(c: Caller, shiftId: Option<Uuid>, shifts: map<Uuid, Shift>): Result<bool>
  {
    if IsStaff(c) then Ok(true)
    else
      var driver :- ShiftDriver(shifts, shiftId);
      Ok(IsUser(c, driver))
  }

  /**
   * Staff may access every trip and shift. Otherwise a missing trip is
   * refused, and a caller with an id accesses a trip exactly when it is
   * the trip's rider or the driver of the trip's shift, and a shift
   * exactly when it is its driver. A caller without an id is granted an
   * unknown shift, or one without a driver, because empty equals empty.
   */
  lemma TripAndShiftAccessCorrect(c: Caller, tripId: Option<Uuid>, shiftId: Option<Uuid>,
                                  trips: map<Uuid, TripRequest>, shifts: map<Uuid, Shift>)
    ensures IsStaff(c) ==> CanAccessTripRequest(c, tripId, trips, shifts) == Ok(true) &&
                           CanAccessShift(c, shiftId, shifts) == Ok(true)
    ensures !IsStaff(c) && tripId.Some? && tripId.value !in trips ==> CanAccessTripRequest(c, tripId, trips, shifts) == Ok(false)
    ensures !IsStaff(c) && AuthenticatedUserId(c).Some? && tripId.Some? && tripId.value in trips ==>
              var trip := trips[tripId.value];
              var r := CanAccessTripRequest(c, tripId, trips, shifts);
              (r == Ok(true) <==>
                 trip.riderId == AuthenticatedUserId(c) ||
                 (trip.riderId.Some? && trip.shiftId.Some? && trip.shiftId.value in shifts &&
                  shifts[trip.shiftId.value].driverId == AuthenticatedUserId(c)))
    ensures !IsStaff(c) && shiftId.Some? && AuthenticatedUserId(c).Some? ==>
              (CanAccessShift(c, shiftId, shifts) == Ok(true) <==>
                 shiftId.value in shifts && shifts[shiftId.value].driverId == AuthenticatedUserId(c))
    ensures !IsStaff(c) && AuthenticatedUserId(c).None? && shiftId.Some? && shiftId.value !in shifts ==>
              CanAccessShift(c, shiftId, shifts) == Ok(true)
  {
  }

  predicate CanAccessLocations(c: Caller)
  {
    IsStaff(c)
  }

  /**
   * canAccessLocation(driverId): staff; the driver itself (a null driver
   * id throws); or a caller whose active trip (at `now`, among the trips
   * it rides) is on a shift of this driver. An active trip with no shift
   * id is refused by the lookup.
   */
  function CanAccessLocation(c: Caller, driverId: Option<Uuid>, callerTrips: seq<TripRequest>, now: int,
                             shifts: map<Uuid, Shift>): Result<bool>
  {
    if IsStaff(c) then Ok(true)
    else
      var self :- IsUserId(c, driverId);
      if self then Ok(true)
      else if AuthenticatedUserId(c).None? then Ok(false)
      else match ActiveTripForRider(callerTrips, now)
        case None => Ok(false)
        case Some(trip) =>
          var driver :- ShiftDriver(shifts, trip.shiftId);
          Ok(driver == driverId)
  }

  /**
   * A located driver is visible to staff, to itself, and to a rider whose
   * current trip is on that driver's shift, and to no one else; a rider
   * without an active trip sees no driver.
   */
  lemma LocationAccessCorrect(c: Caller, driverId: Option<Uuid>, callerTrips: seq<TripRequest>, now: int,
                              shifts: map<Uuid, Shift>)
    ensures IsStaff(c) ==> CanAccessLocation(c, driverId, callerTrips, now, shifts) == Ok(true)
    ensures !IsStaff(c) && driverId.None? ==> CanAccessLocation(c, driverId, callerTrips, now, shifts) == Err(UserIdMissing)
    ensures !IsStaff(c) && driverId.Some? ==>
              var r := CanAccessLocation(c, driverId, callerTrips, now, shifts);
              var active := ActiveTripForRider(callerTrips, now);
              (AuthenticatedUserId(c) == driverId ==> r == Ok(true)) &&
              (AuthenticatedUserId(c) != driverId ==>
                 (r == Ok(true) <==>
                    AuthenticatedUserId(c).Some? && active.Some? && active.value.shiftId.Some? &&
                    active.value.shiftId.value in shifts && shifts[active.value.shiftId.value].driverId == driverId) &&
                 (AuthenticatedUserId(c).Some? && active.None? ==> r == Ok(false)))
  {
  }

  // ---------------------------------------------------------------------
  // Partners and their transportation requests

  /** The partner lists the facility; a null facility id is listed by no partner. */
  predicate ListsFacility(p: Partner, facilityId: Option<Uuid>)
  {
    facilityId.Some? && p.facilities.Some? && facilityId.value in p.facilities.value
  }

  /** Two different partner documents list the facility. */
  predicate ListedTwice(partners: seq<Partner>, facilityId: Option<Uuid>)
  {
    exists i, j :: 0 <= i < j < |partners| && ListsFacility(partners[i], facilityId) && ListsFacility(partners[j], facilityId)
  }

  /**
   * `partnerRepository.findByFacilitiesContains(facilityId)`, a
   * single-result query: the one partner listing the facility, none when
   * no partner lists it, and IncorrectResultSize when several do.
   */
  function PartnerOfFacility(partners: seq<Partner>, facilityId: Option<Uuid>): (r: Result<Option<Partner>>)
    ensures r.Err? ==> r.error == IncorrectResultSize
    ensures r.Err? <==> ListedTwice(partners, facilityId)
    ensures r == Ok(None) <==> forall i :: 0 <= i < |partners| ==> !ListsFacility(partners[i], facilityId)
    ensures r.Ok? && r.value.Some? ==>
              exists i :: 0 <= i < |partners| && partners[i] == r.value.value && ListsFacility(partners[i], facilityId) &&
                          forall j :: 0 <= j < |partners| && j != i ==> !ListsFacility(partners[j], facilityId)
  {
    if partners == [] then Ok(None)
    else
      var rest := PartnerOfFacility(partners[1..], facilityId);
      PartnerOfFacilityStep(partners, facilityId, rest);
      if !ListsFacility(partners[0], facilityId) then rest
      else if rest.Err? then rest
      else if rest.value.None? then Ok(Some(partners[0]))
      else Err(IncorrectResultSize)
  }

  /** How the matches of the partners relate to those of all but the first. */
  lemma PartnerOfFacilityStep(partners: seq<Partner>, facilityId: Option<Uuid>, rest: Result<Option<Partner>>)
    requires partners != []
    requires var t := partners[1..];
             (rest.Err? <==> ListedTwice(t, facilityId)) &&
             (rest == Ok(None) <==> forall i :: 0 <= i < |t| ==> !ListsFacility(t[i], facilityId)) &&
             (rest.Ok? && rest.value.Some? ==>
                exists i :: 0 <= i < |t| && t[i] == rest.value.value && ListsFacility(t[i], facilityId) &&
                            forall j :: 0 <= j < |t| && j != i ==> !ListsFacility(t[j], facilityId))
    ensures !ListsFacility(partners[0], facilityId) ==>
              (ListedTwice(partners, facilityId) <==> rest.Err?) &&
              ((forall i :: 0 <= i < |partners| ==> !ListsFacility(partners[i], facilityId)) <==> rest == Ok(None)) &&
              (rest.Ok? && rest.value.Some? ==>
                 exists i :: 0 <= i < |partners| && partners[i] == rest.value.value && ListsFacility(partners[i], facilityId) &&
                             forall j :: 0 <= j < |partners| && j != i ==> !ListsFacility(partners[j], facilityId))
    ensures ListsFacility(partners[0], facilityId) ==>
              (ListedTwice(partners, facilityId) <==> !(rest == Ok(None))) &&
              (rest == Ok(None) ==> forall j :: 0 < j < |partners| ==> !ListsFacility(partners[j], facilityId))
  {
    var t := partners[1..];
    assert forall i :: 0 <= i < |t| ==> t[i] == partners[i + 1];
    if ListedTwice(t, facilityId) {
      var i, j :| 0 <= i < j < |t| && ListsFacility(t[i], facilityId) && ListsFacility(t[j], facilityId);
      assert ListsFacility(partners[i + 1], facilityId) && ListsFacility(partners[j + 1], facilityId);
    }
    if ListedTwice(partners, facilityId) && !ListsFacility(partners[0], facilityId) {
      var i, j :| 0 <= i < j < |partners| && ListsFacility(partners[i], facilityId) && ListsFacility(partners[j], facilityId);
      assert ListsFacility(t[i - 1], facilityId) && ListsFacility(t[j - 1], facilityId);
    }
    if rest.Ok? && rest.value.Some? {
      var i :| 0 <= i < |t| && t[i] == rest.value.value && ListsFacility(t[i], facilityId) &&
               forall j :: 0 <= j < |t| && j != i ==> !ListsFacility(t[j], facilityId);
      if ListsFacility(partners[0], facilityId) {
        assert ListsFacility(partners[i + 1], facilityId);
      } else {
        forall j | 0 <= j < |partners| && j != i + 1 ensures !ListsFacility(partners[j], facilityId) {
          if j > 0 {
            assert partners[j] == t[j - 1];
          }
        }
      }
    }
    if rest == Ok(None) {
      forall j | 0 < j < |partners| ensures !ListsFacility(partners[j], facilityId) {
        assert partners[j] == t[j - 1];
      }
      assert !ListedTwice(partners, facilityId);
    }
    if forall i :: 0 <= i < |partners| ==> !ListsFacility(partners[i], facilityId) {
      forall i | 0 <= i < |t| ensures !ListsFacility(t[i], facilityId) {
        assert t[i] == partners[i + 1];
      }
    }
  }

  function PartnerId(p: Option<Partner>): Option<Uuid>
  {
    if p.None? then None else p.value.id
  }

  /** canReadPartnerTransportationRequests(partnerId): `Optional.of(null)` throws. */
  function CanReadPartnerRequests(c: Caller, partnerId: Option<Uuid>): Result<bool>
  {
    if IsStaff(c) then Ok(true)
    else if !IsPartnerStaff(c) then Ok(false)
    else if partnerId.None? then Err(NullPointer)
    else Ok(AuthenticatedPartnerId(c) == partnerId)
  }

  /** canReadPartnerTransportationRequest: the partner of the request's facility is the caller's partner. */
  function CanReadPartnerRequest(c: Caller, request: PartnerTransportationRequest, partners: seq<Partner>): Result<bool>
  {
    if IsStaff(c) then Ok(true)
    else if !IsPartnerStaff(c) then Ok(false)
    else match PartnerOfFacility(partners, request.facilityId)
      case Err(e) => Err(e)
      case Ok(p) => Ok(PartnerId(p) == AuthenticatedPartnerId(c))
  }

  /** The facility's partner (whose id must be set) is the caller's partner; false without a user or a partner. */
  function FacilityOfCallersPartner(c: Caller, facilityId: Option<Uuid>, partners: seq<Partner>): Result<bool>
  {
    if c.user.None? then Ok(false)
    else match PartnerOfFacility(partners, facilityId)
      case Err(e) => Err(e)
      case Ok(None) => Ok(false)
      case Ok(Some(p)) => if p.id.None? then Err(NullPointer) else Ok(p.id == c.user.value.partnerId)
  }

  function CanCreatePartnerRequest(c: Caller, request: PartnerTransportationRequest, partners: seq<Partner>): Result<bool>
  {
    if HasRole(c, Role.Admin) then Ok(true)
    else if !IsPartnerStaff(c) then Ok(false)
    else FacilityOfCallersPartner(c, request.facilityId, partners)
  }

  /** The stored request's facility belongs to the caller's partner; a null id is refused by the lookup. */
  function RequestOfCallersPartner(c: Caller, requestId: Option<Uuid>,
                                   requests: map<Uuid, PartnerTransportationRequest>, partners: seq<Partner>): Result<bool>
  {
    if requestId.None? then Err(IllegalArgument)
    else if requestId.value !in requests then Ok(false)
    else FacilityOfCallersPartner(c, requests[requestId.value].facilityId, partners)
  }

  function CanCreateTripFromPartnerRequest(c: Caller, requestId: Option<Uuid>,
                                           requests: map<Uuid, PartnerTransportationRequest>, partners: seq<Partner>)
    : Result<bool>
  {
    if IsStaff(c) then Ok(true)
    else if !HasRole(c, Role.PartnerCsr) then Ok(false)
    else RequestOfCallersPartner(c, requestId, requests, partners)
  }

  function CanUpdatePartnerRequest(c: Caller, requestId: Option<Uuid>,
                                   requests: map<Uuid, PartnerTransportationRequest>, partners: seq<Partner>)
    : Result<bool>
  {
    if HasRole(c, Role.Admin) then Ok(true)
    else if !HasRole(c, Role.PartnerCsr) then Ok(false)
    else RequestOfCallersPartner(c, requestId, requests, partners)
  }

  /** `user.map(u -> partnerId.equals(u.getPartnerId())).orElse(false)`: with a user, a null partner id throws. */
  function IsCallersPartner(c: Caller, partnerId: Option<Uuid>): Result<bool>
  {
    if c.user.None? then Ok(false)
    else if partnerId.None? then Err(NullPointer)
    else Ok(c.user.value.partnerId == partnerId)
  }

  function CanReadPartner(c: Caller, partnerId: Option<Uuid>): Result<bool>
  {
    if IsStaff(c) then Ok(true)
    else if !IsPartnerStaff(c) then Ok(false)
    else IsCallersPartner(c, partnerId)
  }

  function CanWritePartner(c: Caller, partnerId: Option<Uuid>): Result<bool>
  {
    if HasRole(c, Role.Admin) then Ok(true)
    else if !HasRole(c, Role.Partner) then Ok(false)
    else IsCallersPartner(c, partnerId)
  }

  /** canAccessPartners, canModifyGroups and canWriteData: ADMIN only. */
  predicate IsAdmin(c: Caller)
  {
    HasRole(c, Role.Admin)
  }

  predicate CanAccessTripSchedulingExceptions(c: Caller)
  {
    IsStaff(c)
  }

  /** canReadData: ADMIN, or any caller for place icons and images. */
  predicate CanReadData(c: Caller, dataType: Option<DataType>)
  {
    HasRole(c, Role.Admin) || dataType == Some(PlaceIcon) || dataType == Some(PlaceImage)
  }

  /**
   * Partner staff reach the data of their own partner only: a caller who
   * is neither staff nor partner staff is refused everything, and a
   * granted caller's partner is the one named or the one listing the
   * request's facility. Whoever may write a partner may read it; a
   * request whose facility has no partner is readable by partner staff
   * without a partner, because empty equals empty.
   */
  lemma PartnerAccessCorrect(c: Caller, partnerId: Option<Uuid>, request: PartnerTransportationRequest,
                             requestId: Option<Uuid>, requests: map<Uuid, PartnerTransportationRequest>,
                             partners: seq<Partner>)
    ensures !IsStaff(c) && !IsPartnerStaff(c) ==>
              CanReadPartnerRequests(c, partnerId) == Ok(false) && CanReadPartnerRequest(c, request, partners) == Ok(false) &&
              CanCreatePartnerRequest(c, request, partners) == Ok(false) &&
              CanCreateTripFromPartnerRequest(c, requestId, requests, partners) == Ok(false) &&
              CanUpdatePartnerRequest(c, requestId, requests, partners) == Ok(false) &&
              CanReadPartner(c, partnerId) == Ok(false) && CanWritePartner(c, partnerId) == Ok(false)
    ensures !IsStaff(c) && (CanReadPartnerRequests(c, partnerId) == Ok(true) ||
                            CanReadPartner(c, partnerId) == Ok(true)) ==>
              AuthenticatedPartnerId(c) == partnerId && partnerId.Some?
    ensures !HasRole(c, Role.Admin) && CanCreatePartnerRequest(c, request, partners) == Ok(true) ==>
              var p := PartnerOfFacility(partners, request.facilityId);
              p.Ok? && p.value.Some? && p.value.value.id.Some? && p.value.value.id == AuthenticatedPartnerId(c)
    ensures !IsStaff(c) && CanCreateTripFromPartnerRequest(c, requestId, requests, partners) == Ok(true) ==>
              HasRole(c, Role.PartnerCsr) && requestId.Some? && requestId.value in requests &&
              var p := PartnerOfFacility(partners, requests[requestId.value].facilityId);
              p.Ok? && p.value.Some? && p.value.value.id.Some? && p.value.value.id == AuthenticatedPartnerId(c)
    ensures CanWritePartner(c, partnerId) == Ok(true) ==> CanReadPartner(c, partnerId) == Ok(true)
    ensures CanUpdatePartnerRequest(c, requestId, requests, partners) == Ok(true) ==>
              CanCreateTripFromPartnerRequest(c, requestId, requests, partners) == Ok(true)
    ensures (IsPartnerStaff(c) && AuthenticatedPartnerId(c).None? && PartnerOfFacility(partners, request.facilityId) == Ok(None))
            ==> CanReadPartnerRequest(c, request, partners) == Ok(true)
    ensures !IsStaff(c) && IsPartnerStaff(c) && ListedTwice(partners, request.facilityId) ==>
              CanReadPartnerRequest(c, request, partners) == Err(IncorrectResultSize)
    ensures !HasRole(c, Role.Admin) && IsPartnerStaff(c) && c.user.Some? && ListedTwice(partners, request.facilityId) ==>
              CanCreatePartnerRequest(c, request, partners) == Err(IncorrectResultSize)
  {
  }

  /** An ADMIN passes every predicate that looks at roles before anything else. */
  lemma AdminPasses(c: Caller, tripId: Option<Uuid>, shiftId: Option<Uuid>, driverId: Option<Uuid>,
                    partnerId: Option<Uuid>, requestId: Option<Uuid>, trip: TripRequest,
                    request: PartnerTransportationRequest, dataType: Option<DataType>, callerTrips: seq<TripRequest>,
                    now: int, trips: map<Uuid, TripRequest>, shifts: map<Uuid, Shift>,
                    requests: map<Uuid, PartnerTransportationRequest>, partners: seq<Partner>)
    requires Role.Admin in c.roles
    ensures CanAccessUsers(c) && CanAccessTripRequests(c) && CanAccessShifts(c) && CanAccessLocations(c)
    ensures CanCreateTripRequest(c, trip) == Ok(true)
    ensures CanAccessTripRequest(c, tripId, trips, shifts) == Ok(true) && CanAccessShift(c, shiftId, shifts) == Ok(true)
    ensures CanAccessLocation(c, driverId, callerTrips, now, shifts) == Ok(true)
    ensures CanReadPartnerRequests(c, partnerId) == Ok(true) && CanReadPartnerRequest(c, request, partners) == Ok(true)
    ensures CanCreatePartnerRequest(c, request, partners) == Ok(true)
    ensures CanCreateTripFromPartnerRequest(c, requestId, requests, partners) == Ok(true)
    ensures CanUpdatePartnerRequest(c, requestId, requests, partners) == Ok(true)
    ensures CanReadPartner(c, partnerId) == Ok(true) && CanWritePartner(c, partnerId) == Ok(true)
    ensures IsAdmin(c) && CanAccessTripSchedulingExceptions(c) && CanReadData(c, dataType)
  {
  }
}

// The records the trip manager stores and exchanges. Every field the
// generated Java model leaves nullable is an Option here; the service's
// repositories hold values of these types keyed by their ids.
module Model {
  import opened Common

  /** A latitude/longitude pair; coordinates are only copied and compared. */
  datatype LatLong = LatLong(latitude: Option<real>, longitude: Option<real>)

  datatype EventAction =
    | ShiftStart      // SHIFT_START
    | ShiftEnd        // SHIFT_END
    | Pickup          // PICKUP
    | Dropoff         // DROPOFF
    | EnRoute         // DRIVER_EN_ROUTE
    | PickupArrival   // PICKUP_ARRIVAL
    | DropoffArrival  // DROPOFF_ARRIVAL

  /** One entry of a shift's timeline. */
  datatype Event = Event(
    id: Option<Uuid>,
    time: Option<int>,
    action: Option<EventAction>,
    riderId: Option<Uuid>,
    tripRequestId: Option<Uuid>,
    placeId: Option<Uuid>,
    leftFloat: Option<int>,
    rightFloat: Option<int>,
    passengerDelta: Option<int>,
    complete: Option<bool>,
    location: Option<LatLong>)

  /** `new Event()`: every field unset. */
  const BlankEvent := Event(None, None, None, None, None, None, None, None, None, None, None)

  datatype Shift = Shift(
    id: Option<Uuid>,
    zoneId: Option<Uuid>,
    driverId: Option<Uuid>,
    startTime: Option<int>,
    startBuffer: Option<int>,
    endTime: Option<int>,
    endBuffer: Option<int>,
    created: Option<int>,
    createdBy: Option<Uuid>,
    trips: Option<seq<Uuid>>,
    events: Option<seq<Event>>,
    active: Option<bool>)

  datatype TripStatus =
    | New                            // NEW
    | DriverAssigned                 // DRIVER_ASSIGNED
    | DriverEnRoute                  // DRIVER_EN_ROUTE
    | DriverArrived                  // DRIVER_ARRIVED
    | TripInProgress                 // TRIP_IN_PROGRESS
    | TripComplete                   // TRIP_COMPLETE
    | CancelByRider                  // CANCEL_BY_RIDER
    | CancelByDriverRiderLate        // CANCEL_BY_DRIVER_RIDER_LATE
    | CancelByDriverRiderNotPresent  // CANCEL_BY_DRIVER_RIDER_NOT_PRESENT
    | NeedsAssignment                // NEEDS_ASSIGNMENT

  datatype TripRequestType = Passenger | Courier

  /** The constraint type of the generated enum is only copied, so it is kept as a code. */
  datatype TimeConstraint = TimeConstraint(constraintType: Option<nat>, time: Option<int>)

  datatype TripRequest = TripRequest(
    id: Option<Uuid>,
    riderId: Option<Uuid>,
    fromLocationId: Option<Uuid>,
    fromLocationNote: Option<string>,
    toLocationId: Option<Uuid>,
    toLocationNote: Option<string>,
    shiftId: Option<Uuid>,
    passengerCount: Option<int>,
    tripRequestType: Option<TripRequestType>,
    primaryTimeConstraint: Option<TimeConstraint>,
    secondaryTimeConstraint: Option<TimeConstraint>,
    leftFloat: Option<int>,
    rightFloat: Option<int>,
    status: Option<TripStatus>,
    scheduleType: Option<nat>,
    partnerTransportationRequestId: Option<Uuid>,
    specialInstructions: Option<string>,
    lastUpdated: Option<int>,
    created: Option<int>,
    fromZoneId: Option<Uuid>,
    toZoneId: Option<Uuid>)

  const BlankTrip := TripRequest(None, None, None, None, None, None, None, None, None, None, None,
                                 None, None, None, None, None, None, None, None, None, None)

  datatype Role = Admin | Dispatcher | Partner | PartnerCsr | Driver | Rider

  datatype NotificationType = Sms | Push

  datatype ResetPassword = ResetPassword(requestId: Option<Uuid>, expires: Option<int>)

  datatype User = User(
    id: Option<Uuid>,
    userName: Option<string>,
    password: Option<string>,
    firstName: Option<string>,
    lastName: Option<string>,
    email: Option<string>,
    address: Option<string>,
    primaryPhone: Option<string>,
    otherPhone: Option<string>,
    notificationType: Option<NotificationType>,
    groups: Option<seq<Uuid>>,
    roles: Option<seq<Role>>,
    partnerId: Option<Uuid>,
    active: Option<bool>,
    zones: Option<seq<Uuid>>,
    places: Option<seq<Uuid>>,
    placeNicknames: Option<map<Uuid, string>>,
    favoritePlaces: Option<seq<Uuid>>,
    resetPassword: Option<ResetPassword>,
    created: Option<int>)

  const BlankUser := User(None, None, None, None, None, None, None, None, None, None,
                          None, None, None, None, None, None, None, None, None, None)

  datatype Place = Place(
    id: Option<Uuid>,
    userId: Option<Uuid>,
    name: Option<string>,
    description: Option<string>,
    placeType: Option<nat>,
    isPrivate: Option<bool>,
    location: Option<LatLong>,
    address: Option<string>,
    hoursOfOperation: Option<string>,
    phoneNumber: Option<string>,
    iconId: Option<Uuid>,
    imageId: Option<Uuid>,
    zoneId: Option<Uuid>,
    groups: Option<seq<Uuid>>)

  const BlankPlace := Place(None, None, None, None, None, None, None, None, None, None, None, None, None, None)

  /** SCHEDULED, CANCELLED and COMPLETE are the values the modelled endpoints set; the others are kept as codes. */
  datatype PartnerRequestStatus = Scheduled | Cancelled | Complete | OtherStatus(code: nat)

  datatype PartnerTransportationRequest = PartnerTransportationRequest(
    id: Option<Uuid>,
    address: Option<string>,
    email: Option<string>,
    facilityId: Option<Uuid>,
    firstName: Option<string>,
    lastName: Option<string>,
    notes: Option<string>,
    primaryPhone: Option<string>,
    status: Option<PartnerRequestStatus>,
    submitterUserId: Option<Uuid>,
    tripId: Option<Uuid>,
    lastUpdated: Option<int>)

  datatype Group = Group(
    id: Option<Uuid>,
    parentGroupId: Option<Uuid>,
    ownerId: Option<Uuid>,
    name: Option<string>,
    eligibilityId: Option<Uuid>,
    sponsorshipId: Option<Uuid>,
    fareId: Option<Uuid>,
    originZoneId: Option<Uuid>,
    destinationSortId: Option<Uuid>,
    privacyId: Option<Uuid>,
    termId: Option<Uuid>,
    serviceLevelAgreementId: Option<Uuid>,
    reportingId: Option<Uuid>,
    agentId: Option<Uuid>,
    salesTemplateId: Option<Uuid>,
    iconId: Option<Uuid>)

  const BlankGroup := Group(None, None, None, None, None, None, None, None, None, None, None, None, None, None, None, None)

  datatype DataType =
    | PlaceIcon | PlaceImage
    | GroupAgent | GroupIcon | GroupReporting | GroupSalesTemplate | GroupServiceLevelAgreement | GroupTerms

  /** A stored binary blob and the ids of the records that reference it. */
  datatype DataBlob = DataBlob(
    id: Option<Uuid>,
    name: Option<string>,
    description: Option<string>,
    dataType: Option<DataType>,
    data: Option<seq<Byte>>,
    references: Option<seq<Uuid>>)

  /** A zone; only its id and its whole-hour UTC offset matter to the modelled code. */
  datatype Zone = Zone(id: Option<Uuid>, timeZone: Option<int>)

  datatype Driver = Driver(id: Option<Uuid>, userId: Option<Uuid>, homeZone: Option<Uuid>)

  /** A partner organisation and the facilities it runs. */
  datatype Partner = Partner(id: Option<Uuid>, facilities: Option<seq<Uuid>>)
}

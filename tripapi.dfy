// TripApiImpl: the trip lifecycle. Each endpoint that loads, changes and
// saves trips and shifts is one atomic method on the repositories, proved
// against functions of the records it loaded; the lemmas beside those
// functions say what the lifecycle does to a shift's timeline. The list
// queries are functions of the repository answers they read.
module TripApi {
  import opened Common
  import opened Model
  import opened Timeline
  import opened TripRules
  import opened Dates
  import opened Store
  import opened ShiftApi

  const TripNotFound := NotFound("Trip not found")

  // ---------------------------------------------------------------------
  // unassignTripFromShift and the shift side of deleteTrip

  /** The events that do not belong to trip `tripId` (an event with no trip is kept). */
  function NotOfTrip(tripId: Uuid): Event -> bool
  {
    (e: Event) => e.tripRequestId != Some(tripId)
  }

  function NotTrip(tripId: Uuid): Uuid -> bool
  {
    (id: Uuid) => id != tripId
  }

  /**
   * The shift with trip `tripId` taken off: its id filtered out of
   * `trips` and every event of the trip, complete or not, filtered out of
   * `events` (a null list is read as empty and saved as empty).
   */
  function WithoutTrip(shift: Shift, tripId: Uuid): (r: Shift)
  {
    shift.(trips := Some(Filter(GetOrDefault(shift.trips, []), NotTrip(tripId))),
           events := Some(Filter(GetOrDefault(shift.events, []), NotOfTrip(tripId))))
  }

  /**
   * After the trip is taken off, neither its id nor any of its events is
   * left, every other trip id and event is kept in its order, a sorted
   * timeline stays sorted, and keys stay unique.
   */
  lemma WithoutTripProperties(shift: Shift, tripId: Uuid)
    ensures var r := WithoutTrip(shift, tripId);
            var trips, events := GetOrDefault(shift.trips, []), GetOrDefault(shift.events, []);
            r == shift.(trips := r.trips, events := r.events) && r.trips.Some? && r.events.Some? &&
            (forall x :: x in r.trips.value <==> x in trips && x != tripId) &&
            (forall e :: e in r.events.value <==> e in events && e.tripRequestId != Some(tripId)) &&
            (InTimelineOrder(events) ==> InTimelineOrder(r.events.value)) &&
            (UniqueKeys(events) ==> UniqueKeys(r.events.value))
  {
    var trips, events := GetOrDefault(shift.trips, []), GetOrDefault(shift.events, []);
    FilterMembers(trips, NotTrip(tripId));
    FilterMembers(events, NotOfTrip(tripId));
    if InTimelineOrder(events) {
      FilterSorted(events, NotOfTrip(tripId), EventLeq);
    }
    if UniqueKeys(events) {
      FilterKeysDistinct(events, NotOfTrip(tripId), KeyOfEvent);
    }
  }

  /** The shifts after `unassignTripFromShift`: the trip's shift, when it is set and exists, without the trip. */
  function Unassigned(shifts: map<Uuid, Shift>, shiftId: Option<Uuid>, tripId: Uuid): (r: map<Uuid, Shift>)
    ensures r.Keys == shifts.Keys
    ensures forall k :: k in shifts && Some(k) != shiftId ==> r[k] == shifts[k]
  {
    if shiftId.Some? && shiftId.value in shifts then shifts[shiftId.value := WithoutTrip(shifts[shiftId.value], tripId)]
    else shifts
  }

  /** unassignTripFromShift(trip), for a stored trip (whose id is `tripId`). */
  method Unassign(db: Repositories, shiftId: Option<Uuid>, tripId: Uuid)
    requires db.Valid()
    modifies db`shifts
    ensures db.Valid()
    ensures db.shifts == Unassigned(old(db.shifts), shiftId, tripId)
  {
    if shiftId.Some? && shiftId.value in db.shifts {
      var shift := db.shifts[shiftId.value];
      var trips := Filter(GetOrDefault(shift.trips, []), NotTrip(tripId));
      var events := Filter(GetOrDefault(shift.events, []), NotOfTrip(tripId));
      db.shifts := db.shifts[shiftId.value := shift.(trips := Some(trips), events := Some(events))];
    }
  }

  /** `updateAssociatedPartnerTransportationRequest`: the linked request, when set and found, gets the new status. */
  function PartnerMarked(requests: map<Uuid, PartnerTransportationRequest>, trip: TripRequest,
                         status: PartnerRequestStatus): (r: map<Uuid, PartnerTransportationRequest>)
    ensures r.Keys == requests.Keys
    ensures forall k :: k in requests && Some(k) != trip.partnerTransportationRequestId ==> r[k] == requests[k]
    ensures forall k :: k in requests && Some(k) == trip.partnerTransportationRequestId ==>
              r[k] == requests[k].(status := Some(status))
  {
    var linked := trip.partnerTransportationRequestId;
    if linked.Some? && linked.value in requests then
      requests[linked.value := requests[linked.value].(status := Some(status))]
    else requests
  }

  method MarkPartnerRequest(db: Repositories, trip: TripRequest, status: PartnerRequestStatus)
    requires db.Valid()
    modifies db`partnerRequests
    ensures db.Valid()
    ensures db.partnerRequests == PartnerMarked(old(db.partnerRequests), trip, status)
  {
    var linked := trip.partnerTransportationRequestId;
    if linked.Some? && linked.value in db.partnerRequests {
      var request := db.partnerRequests[linked.value];
      db.partnerRequests := db.partnerRequests[linked.value := request.(status := Some(status))];
    }
  }

  // ---------------------------------------------------------------------
  // assignTripToShift

  /** `trips.add(position, id)` when 0 <= position <= size, otherwise `trips.add(id)`. */
  function InsertTrip(trips: seq<Uuid>, tripId: Uuid, position: Option<int>): (r: seq<Uuid>)
  {
    if position.Some? && 0 <= position.value <= |trips| then InsertAt(trips, position.value, tripId)
    else trips + [tripId]
  }

  /** Where InsertTrip puts the id. */
  function InsertedAt(trips: seq<Uuid>, position: Option<int>): (k: nat)
    ensures k <= |trips|
  {
    if position.Some? && 0 <= position.value <= |trips| then position.value else |trips|
  }

  /** The id lands at the requested position, or last; taking it out again gives the old list. */
  lemma InsertTripPlaces(trips: seq<Uuid>, tripId: Uuid, position: Option<int>)
    ensures var r, k := InsertTrip(trips, tripId, position), InsertedAt(trips, position);
            |r| == |trips| + 1 && r[k] == tripId && RemoveAt(r, k) == trips
    ensures position.Some? && 0 <= position.value <= |trips| ==> InsertedAt(trips, position) == position.value
    ensures (position.None? || position.value < 0 || position.value > |trips|) ==> InsertedAt(trips, position) == |trips|
  {
    var r, k := InsertTrip(trips, tripId, position), InsertedAt(trips, position);
    assert RemoveAt(r, k) == trips;
  }

  /** The PICKUP event assignment upserts: untimed, not complete, at the from-location. */
  function PickupEvent(trip: TripRequest, tripId: Uuid): (e: Event)
    ensures KeyOfEvent(e) == EventKey(Some(tripId), Some(Pickup))
    ensures e.id.None? && e.time.None? && e.complete.None?
  {
    BlankEvent.(action := Some(Pickup), riderId := trip.riderId,
                passengerDelta := Some(GetOrDefault(trip.passengerCount, 1)),
                placeId := trip.fromLocationId, leftFloat := trip.leftFloat, rightFloat := trip.rightFloat,
                tripRequestId := Some(tripId))
  }

  /** The DROPOFF event assignment upserts: untimed, not complete, at the to-location, with no floats. */
  function DropoffEvent(trip: TripRequest, tripId: Uuid): (e: Event)
    ensures KeyOfEvent(e) == EventKey(Some(tripId), Some(Dropoff))
    ensures e.id.None? && e.time.None? && e.complete.None?
  {
    BlankEvent.(action := Some(Dropoff), riderId := trip.riderId,
                passengerDelta := Some(Neg32(GetOrDefault(trip.passengerCount, 1))),
                placeId := trip.toLocationId, tripRequestId := Some(tripId))
  }

  /** The pickup adds the trip's passengers (one by default) and the dropoff takes them off again. */
  lemma PassengersBalance(trip: TripRequest, tripId: Uuid)
    requires IsInt32(GetOrDefault(trip.passengerCount, 1))
    ensures var up, down := PickupEvent(trip, tripId).passengerDelta.value, DropoffEvent(trip, tripId).passengerDelta.value;
            up == GetOrDefault(trip.passengerCount, 1) && (up + down) % 0x1_0000_0000 == 0 &&
            (up != IntMin ==> up + down == 0)
  {
  }

  /** The target shift as assignTripToShift saves it: the id placed in `trips`, then the two upserts. */
  function AssignedShift(shift: Shift, trip: TripRequest, tripId: Uuid, position: Option<int>,
                         pickupId: Uuid, dropoffId: Uuid): (r: Shift)
    ensures r.id == shift.id
  {
    var placed := shift.(trips := Some(InsertTrip(GetOrDefault(shift.trips, []), tripId, position)));
    Added(Added(placed, PickupEvent(trip, tripId), pickupId), DropoffEvent(trip, tripId), dropoffId)
  }

  const PickupKey := (tripId: Uuid) => EventKey(Some(tripId), Some(Pickup))
  const DropoffKey := (tripId: Uuid) => EventKey(Some(tripId), Some(Dropoff))

  /**
   * Assigning a trip whose events the shift does not hold adds exactly its
   * PICKUP and DROPOFF keys, grows the timeline by two, keeps it sorted
   * with unique keys, and changes only `trips` and `events`.
   */
  lemma AssignAddsTripEvents(shift: Shift, trip: TripRequest, tripId: Uuid, position: Option<int>,
                             pickupId: Uuid, dropoffId: Uuid)
    requires UniqueKeys(GetOrDefault(shift.events, []))
    requires PickupKey(tripId) !in Keys(GetOrDefault(shift.events, []))
    requires DropoffKey(tripId) !in Keys(GetOrDefault(shift.events, []))
    ensures var before := GetOrDefault(shift.events, []);
            var r := AssignedShift(shift, trip, tripId, position, pickupId, dropoffId);
            r == shift.(trips := r.trips, events := r.events) &&
            r.trips == Some(InsertTrip(GetOrDefault(shift.trips, []), tripId, position)) &&
            r.events.Some? && |r.events.value| == |before| + 2 &&
            Keys(r.events.value) == Keys(before) + {PickupKey(tripId), DropoffKey(tripId)} &&
            UniqueKeys(r.events.value) && InTimelineOrder(r.events.value)
  {
    var placed := shift.(trips := Some(InsertTrip(GetOrDefault(shift.trips, []), tripId, position)));
    var p, d := PickupEvent(trip, tripId), DropoffEvent(trip, tripId);
    AddedKeys(placed, p, pickupId);
    var once := Added(placed, p, pickupId);
    assert GetOrDefault(once.events, []) == once.events.value;
    AddedKeys(once, d, dropoffId);
  }

  /**
   * A shift fresh from createShift holds its two markers; assigning a
   * trip to it leaves four events: the markers and exactly one PICKUP and
   * one DROPOFF of the trip.
   */
  lemma AssignToNewShift(shift: Shift, id: Uuid, now: int, startId: Uuid, endId: Uuid,
                         trip: TripRequest, tripId: Uuid, position: Option<int>, pickupId: Uuid, dropoffId: Uuid)
    requires GetOrDefault(shift.events, []) == []
    ensures var r := AssignedShift(Created(shift, id, now, startId, endId), trip, tripId, position, pickupId, dropoffId);
            r.events.Some? && |r.events.value| == 4 && UniqueKeys(r.events.value) &&
            Keys(r.events.value) == {EventKey(None, Some(ShiftStart)), EventKey(None, Some(ShiftEnd)),
                                     PickupKey(tripId), DropoffKey(tripId)}
  {
    var created := Created(shift, id, now, startId, endId);
    NewShiftTimeline(shift, id, now, startId, endId);
    AssignAddsTripEvents(created, trip, tripId, position, pickupId, dropoffId);
  }

  /** The trip as assignment stores it; `lastUpdated` is set only on the object returned. */
  function AssignedTrip(trip: TripRequest, shiftId: Uuid): (t: TripRequest)
  {
    trip.(status := Some(DriverAssigned), shiftId := Some(shiftId))
  }

  /**
   * assignTripToShift: "Trip not found" first, then "Shift not found"; a
   * trip already on this shift is returned as it is and nothing is saved;
   * otherwise the trip leaves its old shift (trip id and every event), is
   * saved as DRIVER_ASSIGNED on the new one, and the new shift gets the id
   * at `position` and the two upserted events.
   */
  method AssignTripToShift(db: Repositories, tripId: Uuid, shiftId: Uuid, position: Option<int>, now: int,
                           pickupId: Uuid, dropoffId: Uuid) returns (r: Result<TripRequest>)
    requires db.Valid()
    modifies db`trips, db`shifts
    ensures db.Valid()
    ensures tripId !in old(db.trips) ==> r == Err(TripNotFound)
    ensures tripId in old(db.trips) && shiftId !in old(db.shifts) ==> r == Err(ShiftNotFound)
    ensures tripId in old(db.trips) && shiftId in old(db.shifts) && old(db.trips)[tripId].shiftId == Some(shiftId) ==>
              r == Ok(old(db.trips)[tripId]) && db.trips == old(db.trips) && db.shifts == old(db.shifts)
    ensures r.Err? ==> db.trips == old(db.trips) && db.shifts == old(db.shifts)
    ensures tripId in old(db.trips) && shiftId in old(db.shifts) && old(db.trips)[tripId].shiftId != Some(shiftId) ==>
              var trip := old(db.trips)[tripId];
              r == Ok(AssignedTrip(trip, shiftId).(lastUpdated := Some(now))) &&
              db.trips == old(db.trips)[tripId := AssignedTrip(trip, shiftId)] &&
              db.shifts == Unassigned(old(db.shifts), trip.shiftId, tripId)[shiftId :=
                AssignedShift(old(db.shifts)[shiftId], trip, tripId, position, pickupId, dropoffId)]
  {
    if tripId !in db.trips {
      return Err(TripNotFound);
    }
    var trip := db.trips[tripId];
    if shiftId !in db.shifts {
      return Err(ShiftNotFound);
    }
    if trip.shiftId == Some(shiftId) {
      return Ok(trip);
    }
    r := Reassign(db, tripId, shiftId, position, now, pickupId, dropoffId);
  }

  /** assignTripToShift past its lookups, for a trip not yet on the shift. */
  method Reassign(db: Repositories, tripId: Uuid, shiftId: Uuid, position: Option<int>, now: int,
                  pickupId: Uuid, dropoffId: Uuid) returns (r: Result<TripRequest>)
    requires db.Valid()
    requires tripId in db.trips && shiftId in db.shifts && db.trips[tripId].shiftId != Some(shiftId)
    modifies db`trips, db`shifts
    ensures db.Valid()
    ensures var trip := old(db.trips)[tripId];
            r == Ok(AssignedTrip(trip, shiftId).(lastUpdated := Some(now))) &&
            db.trips == old(db.trips)[tripId := AssignedTrip(trip, shiftId)] &&
            db.shifts == Unassigned(old(db.shifts), trip.shiftId, tripId)[shiftId :=
              AssignedShift(old(db.shifts)[shiftId], trip, tripId, position, pickupId, dropoffId)]
  {
    var trip := db.trips[tripId];
    var shift := db.shifts[shiftId];
    if trip.shiftId.Some? {
      Unassign(db, trip.shiftId, tripId);
    }
    ghost var unassigned := Unassigned(old(db.shifts), trip.shiftId, tripId);
    assert db.shifts == unassigned;
    var saved := AssignedTrip(trip, shiftId);
    db.SaveTrip(saved);
    r := Ok(saved.(lastUpdated := Some(now)));
    var placed := PlaceOnShift(shift, trip, tripId, position, pickupId, dropoffId);
    db.SaveShift(placed);
  }

  /** The shift side of assignTripToShift: the positional insert into `trips`, then the two upserts. */
  method PlaceOnShift(shift: Shift, trip: TripRequest, tripId: Uuid, position: Option<int>,
                      pickupId: Uuid, dropoffId: Uuid) returns (r: Shift)
    ensures r == AssignedShift(shift, trip, tripId, position, pickupId, dropoffId)
  {
    var trips := GetOrDefault(shift.trips, []);
    if position.Some? && position.value >= 0 && position.value <= |trips| {
      trips := trips[..position.value] + [tripId] + trips[position.value..];
    } else {
      trips := trips + [tripId];
    }
    var placed := shift.(trips := Some(trips));
    var withPickup := AddOrUpdateEvent(placed, PickupEvent(trip, tripId), None, pickupId);
    var withDropoff := AddOrUpdateEvent(withPickup.value, DropoffEvent(trip, tripId), None, dropoffId);
    r := withDropoff.value;
  }

  // ---------------------------------------------------------------------
  // cancelTripById

  /** `removeIf` of cancelTripById drops the trip's events that are not complete. */
  function KeptOnCancel(tripId: Uuid): Event -> bool
  {
    (e: Event) => !(e.tripRequestId == Some(tripId) && e.complete != Some(true))
  }

  /** The shift after cancellation: only its events change (a null list is saved as empty). */
  function WithoutIncompleteEvents(shift: Shift, tripId: Uuid): (r: Shift)
  {
    shift.(events := Some(Filter(GetOrDefault(shift.events, []), KeptOnCancel(tripId))))
  }

  /**
   * Cancelling keeps every completed event, every event of another trip
   * and the trip's id in `trips`; it drops the trip's other events. A
   * later deleteTrip on the cancelled shift removes what deleteTrip would
   * have removed from the original one.
   */
  lemma CancelKeepsCompleted(shift: Shift, tripId: Uuid)
    ensures var r := WithoutIncompleteEvents(shift, tripId);
            var events := GetOrDefault(shift.events, []);
            r == shift.(events := r.events) && r.events.Some? &&
            (forall e :: e in r.events.value <==>
                         e in events && (e.tripRequestId != Some(tripId) || e.complete == Some(true))) &&
            (InTimelineOrder(events) ==> InTimelineOrder(r.events.value)) &&
            (UniqueKeys(events) ==> UniqueKeys(r.events.value))
    ensures WithoutTrip(WithoutIncompleteEvents(shift, tripId), tripId) == WithoutTrip(shift, tripId)
  {
    var events := GetOrDefault(shift.events, []);
    FilterMembers(events, KeptOnCancel(tripId));
    if InTimelineOrder(events) {
      FilterSorted(events, KeptOnCancel(tripId), EventLeq);
    }
    if UniqueKeys(events) {
      FilterKeysDistinct(events, KeptOnCancel(tripId), KeyOfEvent);
    }
    FilterFilter(events, KeptOnCancel(tripId), NotOfTrip(tripId));
  }

  /** The `removeIf` loop of cancelTripById. */
  method RemoveIncompleteEvents(events: seq<Event>, tripId: Uuid) returns (kept: seq<Event>)
    ensures kept == Filter(events, KeptOnCancel(tripId))
  {
    kept := [];
    var i := 0;
    while i < |events|
      invariant 0 <= i <= |events|
      invariant kept + Filter(events[i..], KeptOnCancel(tripId)) == Filter(events, KeptOnCancel(tripId))
    {
      var e := events[i];
      assert events[i..][0] == e && events[i..][1..] == events[i + 1..];
      assert KeptOnCancel(tripId)(e) == !(e.tripRequestId == Some(tripId) && e.complete != Some(true));
      if !(e.tripRequestId == Some(tripId) && e.complete != Some(true)) {
        kept := kept + [e];
      }
      i := i + 1;
    }
    assert events[i..] == [];
  }

  /** The statuses cancelTripById accepts. */
  predicate IsCancelReason(s: TripStatus)
  {
    s == CancelByRider || s == CancelByDriverRiderNotPresent || s == CancelByDriverRiderLate
  }

  /** The trip as cancellation saves it. */
  function CancelledTrip(trip: TripRequest, reason: TripStatus, now: int): (t: TripRequest)
  {
    trip.(status := Some(reason), lastUpdated := Some(now))
  }

  /** The shifts after cancellation: the trip's shift, when set and found, loses the trip's incomplete events. */
  function CancelledShifts(shifts: map<Uuid, Shift>, shiftId: Option<Uuid>, tripId: Uuid): (r: map<Uuid, Shift>)
    ensures r.Keys == shifts.Keys
    ensures forall k :: k in shifts && Some(k) != shiftId ==> r[k] == shifts[k]
  {
    if shiftId.Some? && shiftId.value in shifts then
      shifts[shiftId.value := WithoutIncompleteEvents(shifts[shiftId.value], tripId)]
    else shifts
  }

  /**
   * cancelTripById: `List.of(...).contains(null)` throws, any other
   * status than the three cancellations is a bad request, both before
   * any read; an unknown trip is "Trip not found". Otherwise the trip is
   * saved with the reason (keeping its shiftId), its shift loses the
   * trip's incomplete events, and its partner request is CANCELLED.
   */
  method CancelTripById(db: Repositories, tripId: Uuid, reason: Option<TripStatus>, now: int) returns (r: Result<TripRequest>)
    requires db.Valid()
    modifies db`trips, db`shifts, db`partnerRequests
    ensures db.Valid()
    ensures reason.None? ==> r == Err(NullPointer)
    ensures reason.Some? && !IsCancelReason(reason.value) ==> r == Err(BadRequest)
    ensures reason.Some? && IsCancelReason(reason.value) && tripId !in old(db.trips) ==> r == Err(TripNotFound)
    ensures r.Err? ==> db.trips == old(db.trips) && db.shifts == old(db.shifts) &&
                       db.partnerRequests == old(db.partnerRequests)
    ensures reason.Some? && IsCancelReason(reason.value) && tripId in old(db.trips) ==>
              var saved := CancelledTrip(old(db.trips)[tripId], reason.value, now);
              r == Ok(saved) && db.trips == old(db.trips)[tripId := saved] &&
              db.shifts == CancelledShifts(old(db.shifts), saved.shiftId, tripId) &&
              db.partnerRequests == PartnerMarked(old(db.partnerRequests), saved, Cancelled)
  {
    if reason.None? {
      return Err(NullPointer);
    }
    if !IsCancelReason(reason.value) {
      return Err(BadRequest);
    }
    if tripId !in db.trips {
      return Err(TripNotFound);
    }
    var trip := db.trips[tripId];
    trip := trip.(status := reason, lastUpdated := Some(now));
    assert trip == CancelledTrip(old(db.trips)[tripId], reason.value, now) && trip.id == Some(tripId);
    db.SaveTrip(trip);
    CancelShiftEvents(db, trip.shiftId, tripId);
    MarkPartnerRequest(db, trip, Cancelled);
    r := Ok(trip);
  }

  /** The shift side of cancelTripById: the trip's shift, when set and found, loses the trip's incomplete events. */
  method CancelShiftEvents(db: Repositories, shiftId: Option<Uuid>, tripId: Uuid)
    requires db.Valid()
    modifies db`shifts
    ensures db.Valid()
    ensures db.shifts == CancelledShifts(old(db.shifts), shiftId, tripId)
  {
    if shiftId.Some? && shiftId.value in db.shifts {
      var shift := db.shifts[shiftId.value];
      var events := RemoveIncompleteEvents(GetOrDefault(shift.events, []), tripId);
      assert shift.id == shiftId;
      db.SaveShift(shift.(events := Some(events)));
    }
  }

  // ---------------------------------------------------------------------
  // deleteTrip

  /**
   * deleteTrip: an unknown trip changes nothing (204); otherwise its
   * shift loses the trip's id and all its events, complete ones too, its
   * partner request is CANCELLED and the trip is deleted. The
   * CANCEL_BY_RIDER status is set only in memory and never saved.
   */
  method DeleteTrip(db: Repositories, tripId: Uuid)
    requires db.Valid()
    modifies db`trips, db`shifts, db`partnerRequests
    ensures db.Valid()
    ensures tripId !in old(db.trips) ==>
              db.trips == old(db.trips) && db.shifts == old(db.shifts) && db.partnerRequests == old(db.partnerRequests)
    ensures tripId in old(db.trips) ==>
              var trip := old(db.trips)[tripId];
              db.trips == old(db.trips) - {tripId} &&
              db.shifts == Unassigned(old(db.shifts), trip.shiftId, tripId) &&
              db.partnerRequests == PartnerMarked(old(db.partnerRequests), trip, Cancelled)
  {
    if tripId !in db.trips {
      return;
    }
    var trip := db.trips[tripId].(status := Some(CancelByRider));
    Unassign(db, trip.shiftId, tripId);
    MarkPartnerRequest(db, trip, Cancelled);
    db.trips := db.trips - {tripId};
  }

  // ---------------------------------------------------------------------
  // setTripNeedsAssigned

  function NeedsAssignmentTrip(trip: TripRequest, now: int): (t: TripRequest)
  {
    trip.(status := Some(NeedsAssignment), shiftId := None, lastUpdated := Some(now))
  }

  /**
   * setTripNeedsAssigned: the full unassignment (trip id and every event
   * off the old shift), then NEEDS_ASSIGNMENT with no shift.
   */
  method SetTripNeedsAssigned(db: Repositories, tripId: Uuid, now: int) returns (r: Result<TripRequest>)
    requires db.Valid()
    modifies db`trips, db`shifts
    ensures db.Valid()
    ensures tripId !in old(db.trips) ==> r == Err(TripNotFound) && db.trips == old(db.trips) && db.shifts == old(db.shifts)
    ensures tripId in old(db.trips) ==>
              var trip := old(db.trips)[tripId];
              r == Ok(NeedsAssignmentTrip(trip, now)) &&
              db.trips == old(db.trips)[tripId := NeedsAssignmentTrip(trip, now)] &&
              db.shifts == Unassigned(old(db.shifts), trip.shiftId, tripId)
  {
    if tripId !in db.trips {
      return Err(TripNotFound);
    }
    var trip := db.trips[tripId];
    Unassign(db, trip.shiftId, tripId);
    trip := trip.(status := Some(NeedsAssignment), shiftId := None, lastUpdated := Some(now));
    db.trips := db.trips[tripId := trip];
    r := Ok(trip);
  }

  /**
   * After unassignment the trip is on no shift's list and no shift holds
   * an event of it, provided it was at most on the shift it named; the
   * other shifts are untouched.
   */
  lemma UnassignedLeavesNoTrace(shifts: map<Uuid, Shift>, shiftId: Option<Uuid>, tripId: Uuid)
    requires forall k :: k in shifts && Some(k) != shiftId ==>
               tripId !in GetOrDefault(shifts[k].trips, []) &&
               forall e :: e in GetOrDefault(shifts[k].events, []) ==> e.tripRequestId != Some(tripId)
    ensures var r := Unassigned(shifts, shiftId, tripId);
            forall k :: k in r ==>
              tripId !in GetOrDefault(r[k].trips, []) &&
              forall e :: e in GetOrDefault(r[k].events, []) ==> e.tripRequestId != Some(tripId)
  {
    if shiftId.Some? && shiftId.value in shifts {
      WithoutTripProperties(shifts[shiftId.value], tripId);
    }
  }

  // ---------------------------------------------------------------------
  // The progress endpoints: tripEnroute, tripPickupArrived,
  // tripPickUpComplete, tripDropffArrived and tripDropOffComplete

  /** The five progress endpoints, in the order a trip normally goes through them. */
  datatype ProgressStep =
    | EnRouteStep          // tripEnroute
    | PickupArrivedStep    // tripPickupArrived
    | PickupCompleteStep   // tripPickUpComplete
    | DropoffArrivedStep   // tripDropffArrived
    | DropoffCompleteStep  // tripDropOffComplete

  /** The status each endpoint saves on the trip, whatever the status was before. */
  function StatusAfter(step: ProgressStep): TripStatus
  {
    match step
    case EnRouteStep => DriverEnRoute
    case PickupArrivedStep => DriverArrived
    case PickupCompleteStep => TripInProgress
    case DropoffArrivedStep => TripInProgress
    case DropoffCompleteStep => TripComplete
  }

  /** The event action each endpoint logs or completes. */
  function StepAction(step: ProgressStep): EventAction
  {
    match step
    case EnRouteStep => EnRoute
    case PickupArrivedStep => PickupArrival
    case PickupCompleteStep => Pickup
    case DropoffArrivedStep => DropoffArrival
    case DropoffCompleteStep => Dropoff
  }

  /** The en-route and arrival endpoints log a new event; the two complete endpoints mark the planned one. */
  predicate Logs(step: ProgressStep)
  {
    step != PickupCompleteStep && step != DropoffCompleteStep
  }

  /** The trip as each endpoint saves and returns it. */
  function Progressed(trip: TripRequest, step: ProgressStep, now: int): TripRequest
  {
    trip.(status := Some(StatusAfter(step)), lastUpdated := Some(now))
  }

  /** After the dropoff-complete step the trip is never active again, whatever the instant. */
  lemma CompletedTripInactive(trip: TripRequest, now: int, later: int)
    ensures !IsActive(Progressed(trip, DropoffCompleteStep, now), later)
  {
    NeverActive(Progressed(trip, DropoffCompleteStep, now), later);
  }

  /** The event the en-route and arrival endpoints log: done at `now`, where the driver is. */
  function ProgressEvent(step: ProgressStep, trip: TripRequest, tripId: Uuid, now: int,
                         location: Option<LatLong>): (e: Event)
    ensures KeyOfEvent(e) == EventKey(Some(tripId), Some(StepAction(step)))
  {
    BlankEvent.(action := Some(StepAction(step)), time := Some(now), riderId := trip.riderId,
                placeId := if step == DropoffArrivedStep then trip.toLocationId else trip.fromLocationId,
                tripRequestId := Some(tripId), location := location, complete := Some(true))
  }

  /** The forEach of the complete endpoints on one event: a planned event of this trip and action is done now. */
  function Marked(e: Event, tripId: Uuid, action: EventAction, now: int, location: Option<LatLong>): Event
  {
    if e.tripRequestId == Some(tripId) && e.action == Some(action) then
      e.(time := Some(now), location := location, complete := Some(true))
    else e
  }

  /** An event of this trip without an action: `getAction().equals(..)` throws on it. */
  predicate Unmarkable(e: Event, tripId: Uuid)
  {
    e.tripRequestId == Some(tripId) && e.action.None?
  }

  /**
   * The filter and forEach of the complete endpoints over the timeline:
   * the events are marked in turn, and the first event of this trip
   * without an action throws NullPointerException.
   */
  function MarkedComplete(s: seq<Event>, tripId: Uuid, action: EventAction, now: int,
                          location: Option<LatLong>): (r: Result<seq<Event>>)
    decreases |s|
  {
    if s == [] then Ok([])
    else if Unmarkable(s[0], tripId) then Err(NullPointer)
    else
      var rest :- MarkedComplete(s[1..], tripId, action, now, location);
      Ok([Marked(s[0], tripId, action, now, location)] + rest)
  }

  /**
   * Marking fails exactly when some event of this trip has no action, and
   * then with NullPointerException; otherwise the timeline keeps its
   * length and each event is marked in its place.
   */
  lemma {:induction false} MarkedCompleteProperties(s: seq<Event>, tripId: Uuid, action: EventAction, now: int,
                                                    location: Option<LatLong>)
    ensures var r := MarkedComplete(s, tripId, action, now, location);
            (r.Err? <==> exists i :: 0 <= i < |s| && Unmarkable(s[i], tripId)) &&
            (r.Err? ==> r.error == NullPointer) &&
            (r.Ok? ==> |r.value| == |s| &&
                       forall i :: 0 <= i < |s| ==> r.value[i] == Marked(s[i], tripId, action, now, location))
    decreases |s|
  {
    if s != [] && Unmarkable(s[0], tripId) {
      assert Unmarkable(s[0], tripId);
    } else if s != [] {
      var tail := s[1..];
      MarkedCompleteProperties(tail, tripId, action, now, location);
      if exists i :: 0 <= i < |s| && Unmarkable(s[i], tripId) {
        var i :| 0 <= i < |s| && Unmarkable(s[i], tripId);
        assert tail[i - 1] == s[i];
      }
      if exists i :: 0 <= i < |tail| && Unmarkable(tail[i], tripId) {
        var i :| 0 <= i < |tail| && Unmarkable(tail[i], tripId);
        assert s[i + 1] == tail[i];
      }
      var r := MarkedComplete(s, tripId, action, now, location);
      if r.Ok? {
        forall i | 0 < i < |s| ensures r.value[i] == Marked(s[i], tripId, action, now, location) {
          assert s[i] == tail[i - 1];
        }
      }
    }
  }

  /** Marking keeps the timeline's set of keys. */
  lemma MarkedKeySet(s: seq<Event>, m: seq<Event>)
    requires |m| == |s| && forall i :: 0 <= i < |s| ==> KeyOfEvent(m[i]) == KeyOfEvent(s[i])
    ensures Keys(m) == Keys(s)
  {
    forall k ensures k in Keys(m) <==> k in Keys(s) {
      if k in Keys(m) {
        var e :| e in m && KeyOfEvent(e) == k;
        var i :| 0 <= i < |m| && m[i] == e;
        assert s[i] in s;
      }
      if k in Keys(s) {
        var e :| e in s && KeyOfEvent(e) == k;
        var i :| 0 <= i < |s| && s[i] == e;
        assert m[i] in m;
      }
    }
  }

  /** The events marking leaves with the marked key are done; the others are events that were there. */
  lemma MarkedEvents(s: seq<Event>, tripId: Uuid, action: EventAction, now: int, location: Option<LatLong>)
    requires MarkedComplete(s, tripId, action, now, location).Ok?
    ensures var m := MarkedComplete(s, tripId, action, now, location).value;
            (forall e :: e in m && KeyOfEvent(e) == EventKey(Some(tripId), Some(action)) ==>
                          e.time == Some(now) && e.location == location && e.complete == Some(true)) &&
            (forall e :: e in m && KeyOfEvent(e) != EventKey(Some(tripId), Some(action)) ==> e in s)
  {
    MarkedCompleteProperties(s, tripId, action, now, location);
    var m := MarkedComplete(s, tripId, action, now, location).value;
    forall e | e in m
      ensures KeyOfEvent(e) == EventKey(Some(tripId), Some(action)) ==>
                e.time == Some(now) && e.location == location && e.complete == Some(true)
      ensures KeyOfEvent(e) != EventKey(Some(tripId), Some(action)) ==> e in s
    {
      var i :| 0 <= i < |m| && m[i] == e;
      assert s[i] in s;
    }
  }

  /**
   * Marking keeps every event's key, hence the timeline's keys and their
   * uniqueness; afterwards each event with the marked key is done at
   * `now` where the driver is, and every other event is one that was there.
   */
  lemma MarkedKeys(s: seq<Event>, tripId: Uuid, action: EventAction, now: int, location: Option<LatLong>)
    requires MarkedComplete(s, tripId, action, now, location).Ok?
    ensures var m := MarkedComplete(s, tripId, action, now, location).value;
            Keys(m) == Keys(s) && (UniqueKeys(s) ==> UniqueKeys(m)) &&
            (forall e :: e in m && KeyOfEvent(e) == EventKey(Some(tripId), Some(action)) ==>
                          e.time == Some(now) && e.location == location && e.complete == Some(true)) &&
            (forall e :: e in m && KeyOfEvent(e) != EventKey(Some(tripId), Some(action)) ==> e in s)
  {
    MarkedCompleteProperties(s, tripId, action, now, location);
    var m := MarkedComplete(s, tripId, action, now, location).value;
    assert forall i :: 0 <= i < |s| ==> KeyOfEvent(m[i]) == KeyOfEvent(s[i]);
    MarkedKeySet(s, m);
    MarkedEvents(s, tripId, action, now, location);
  }

  /** What the complete endpoints save: the marked timeline sorted again; a null timeline is saved as it is. */
  function CompletedShift(shift: Shift, tripId: Uuid, action: EventAction, now: int,
                          location: Option<LatLong>): (r: Result<Shift>)
  {
    if shift.events.None? then Ok(shift)
    else
      var marked :- MarkedComplete(shift.events.value, tripId, action, now, location);
      Ok(SortEvents(shift.(events := Some(marked))))
  }

  /** The shift after one progress step, or the exception a complete step throws; only the events change. */
  function AdvancedShift(shift: Shift, step: ProgressStep, trip: TripRequest, tripId: Uuid, now: int,
                         location: Option<LatLong>, freshId: Uuid): (r: Result<Shift>)
    ensures r.Ok? ==> r.value == shift.(events := r.value.events)
  {
    if Logs(step) then Ok(Added(shift, ProgressEvent(step, trip, tripId, now, location), freshId))
    else CompletedShift(shift, tripId, StepAction(step), now, location)
  }

  /** The shift repository after a progress step: only the trip's shift, when set and found, changes. */
  function AdvancedShifts(shifts: map<Uuid, Shift>, step: ProgressStep, trip: TripRequest, tripId: Uuid, now: int,
                          location: Option<LatLong>, freshId: Uuid): (r: Result<map<Uuid, Shift>>)
    ensures r.Ok? ==> r.value.Keys == shifts.Keys &&
                      forall k :: k in shifts && Some(k) != trip.shiftId ==> r.value[k] == shifts[k]
  {
    if trip.shiftId.Some? && trip.shiftId.value in shifts then
      var next :- AdvancedShift(shifts[trip.shiftId.value], step, trip, tripId, now, location, freshId);
      Ok(shifts[trip.shiftId.value := next])
    else Ok(shifts)
  }

  function EventsOf(shift: Shift): seq<Event>
  {
    GetOrDefault(shift.events, [])
  }

  /**
   * One progress step on a timeline with unique keys and no event of this
   * trip without an action succeeds, changes only the events, and keeps
   * the keys unique and the timeline in order. A logging step adds the
   * step's key, one more event exactly when that key is new; a complete
   * step keeps the keys and the length and leaves every event with the
   * step's key done at `now` where the driver is.
   */
  lemma StepKeys(shift: Shift, step: ProgressStep, trip: TripRequest, tripId: Uuid, now: int,
                 location: Option<LatLong>, freshId: Uuid)
    requires UniqueKeys(EventsOf(shift))
    requires EventKey(Some(tripId), None) !in Keys(EventsOf(shift))
    ensures var r := AdvancedShift(shift, step, trip, tripId, now, location, freshId);
            var k := EventKey(Some(tripId), Some(StepAction(step)));
            var before := EventsOf(shift);
            r.Ok? &&
            var after := EventsOf(r.value);
            UniqueKeys(after) && InTimelineOrder(after) && EventKey(Some(tripId), None) !in Keys(after) &&
            (Logs(step) ==> Keys(after) == Keys(before) + {k} &&
                            |after| == |before| + (if k in Keys(before) then 0 else 1)) &&
            (!Logs(step) ==> Keys(after) == Keys(before) && |after| == |before| &&
                             forall e :: e in after && KeyOfEvent(e) == k ==>
                                           e.time == Some(now) && e.location == location && e.complete == Some(true))
  {
    var before := EventsOf(shift);
    if Logs(step) {
      AddedKeys(shift, ProgressEvent(step, trip, tripId, now, location), freshId);
    } else if shift.events.Some? {
      var action := StepAction(step);
      forall i | 0 <= i < |before| ensures KeyOfEvent(before[i]) in Keys(before) {
        assert before[i] in before;
      }
      MarkedCompleteProperties(before, tripId, action, now, location);
      MarkedKeys(before, tripId, action, now, location);
      var m := MarkedComplete(before, tripId, action, now, location).value;
      SortKeepsKeys(m);
      SortTimelineCorrect(m);
      forall e | e in SortTimeline(m) ensures e in m {
        assert e in multiset(SortTimeline(m));
      }
    }
  }

  /**
   * The pickup leg: en route, pickup arrival and pickup complete add the
   * two logged keys, one event each when they are new.
   */
  lemma PickupLeg(shift: Shift, trip: TripRequest, tripId: Uuid, now: int, location: Option<LatLong>,
                  id1: Uuid, id2: Uuid)
    requires UniqueKeys(EventsOf(shift)) && EventKey(Some(tripId), None) !in Keys(EventsOf(shift))
    requires EventKey(Some(tripId), Some(EnRoute)) !in Keys(EventsOf(shift))
    requires EventKey(Some(tripId), Some(PickupArrival)) !in Keys(EventsOf(shift))
    ensures var n := |EventsOf(shift)|;
            var s1 := AdvancedShift(shift, EnRouteStep, trip, tripId, now, location, id1);
            s1.Ok? && |EventsOf(s1.value)| == n + 1 &&
            var s2 := AdvancedShift(s1.value, PickupArrivedStep, trip, tripId, now, location, id2);
            s2.Ok? && |EventsOf(s2.value)| == n + 2 &&
            var s3 := AdvancedShift(s2.value, PickupCompleteStep, trip, tripId, now, location, id2);
            s3.Ok? && |EventsOf(s3.value)| == n + 2 &&
            UniqueKeys(EventsOf(s3.value)) &&
            Keys(EventsOf(s3.value)) == Keys(EventsOf(shift)) +
              {EventKey(Some(tripId), Some(EnRoute)), EventKey(Some(tripId), Some(PickupArrival))}
  {
    var k0 := Keys(EventsOf(shift));
    var enRoute := EventKey(Some(tripId), Some(EnRoute));
    var pickupArrival := EventKey(Some(tripId), Some(PickupArrival));
    StepKeys(shift, EnRouteStep, trip, tripId, now, location, id1);
    var s1 := AdvancedShift(shift, EnRouteStep, trip, tripId, now, location, id1).value;
    assert Keys(EventsOf(s1)) == k0 + {enRoute};
    assert pickupArrival !in Keys(EventsOf(s1));
    StepKeys(s1, PickupArrivedStep, trip, tripId, now, location, id2);
    var s2 := AdvancedShift(s1, PickupArrivedStep, trip, tripId, now, location, id2).value;
    StepKeys(s2, PickupCompleteStep, trip, tripId, now, location, id2);
  }

  /** The dropoff leg: dropoff arrival adds its key, one event when it is new, and dropoff complete adds none. */
  lemma DropoffLeg(shift: Shift, trip: TripRequest, tripId: Uuid, now: int, location: Option<LatLong>, id3: Uuid)
    requires UniqueKeys(EventsOf(shift)) && EventKey(Some(tripId), None) !in Keys(EventsOf(shift))
    requires EventKey(Some(tripId), Some(DropoffArrival)) !in Keys(EventsOf(shift))
    ensures var n := |EventsOf(shift)|;
            var s4 := AdvancedShift(shift, DropoffArrivedStep, trip, tripId, now, location, id3);
            s4.Ok? && |EventsOf(s4.value)| == n + 1 &&
            var s5 := AdvancedShift(s4.value, DropoffCompleteStep, trip, tripId, now, location, id3);
            s5.Ok? && |EventsOf(s5.value)| == n + 1 &&
            Keys(EventsOf(s5.value)) == Keys(EventsOf(shift)) + {EventKey(Some(tripId), Some(DropoffArrival))}
  {
    StepKeys(shift, DropoffArrivedStep, trip, tripId, now, location, id3);
    var s4 := AdvancedShift(shift, DropoffArrivedStep, trip, tripId, now, location, id3).value;
    StepKeys(s4, DropoffCompleteStep, trip, tripId, now, location, id3);
  }

  /**
   * The normal walk of a trip whose shift holds only the two markers and
   * the trip's planned pickup and dropoff: en route and pickup arrival add
   * one event each, pickup complete adds none, dropoff arrival adds one
   * and dropoff complete none, so the timeline grows from four events to
   * 5, 6, 6, 7 and 7, and ends with the three logged keys beside the four.
   */
  lemma ProgressWalk(shift: Shift, trip: TripRequest, tripId: Uuid, now: int, location: Option<LatLong>,
                     id1: Uuid, id2: Uuid, id3: Uuid)
    requires shift.events.Some? && |shift.events.value| == 4 && UniqueKeys(shift.events.value)
    requires Keys(shift.events.value) == {EventKey(None, Some(ShiftStart)), EventKey(None, Some(ShiftEnd)),
                                          PickupKey(tripId), DropoffKey(tripId)}
    ensures var s1 := AdvancedShift(shift, EnRouteStep, trip, tripId, now, location, id1);
            s1.Ok? && |EventsOf(s1.value)| == 5 &&
            var s2 := AdvancedShift(s1.value, PickupArrivedStep, trip, tripId, now, location, id2);
            s2.Ok? && |EventsOf(s2.value)| == 6 &&
            var s3 := AdvancedShift(s2.value, PickupCompleteStep, trip, tripId, now, location, id2);
            s3.Ok? && |EventsOf(s3.value)| == 6 &&
            var s4 := AdvancedShift(s3.value, DropoffArrivedStep, trip, tripId, now, location, id3);
            s4.Ok? && |EventsOf(s4.value)| == 7 &&
            var s5 := AdvancedShift(s4.value, DropoffCompleteStep, trip, tripId, now, location, id3);
            s5.Ok? && |EventsOf(s5.value)| == 7 &&
            Keys(EventsOf(s5.value)) == Keys(shift.events.value) +
              {EventKey(Some(tripId), Some(EnRoute)), EventKey(Some(tripId), Some(PickupArrival)),
               EventKey(Some(tripId), Some(DropoffArrival))}
  {
    var k0 := Keys(shift.events.value);
    assert EventKey(Some(tripId), None) !in k0;
    assert EventKey(Some(tripId), Some(EnRoute)) !in k0;
    assert EventKey(Some(tripId), Some(PickupArrival)) !in k0;
    PickupLeg(shift, trip, tripId, now, location, id1, id2);
    var s1 := AdvancedShift(shift, EnRouteStep, trip, tripId, now, location, id1).value;
    var s2 := AdvancedShift(s1, PickupArrivedStep, trip, tripId, now, location, id2).value;
    var s3 := AdvancedShift(s2, PickupCompleteStep, trip, tripId, now, location, id2).value;
    assert EventKey(Some(tripId), None) !in Keys(EventsOf(s3));
    assert EventKey(Some(tripId), Some(DropoffArrival)) !in Keys(EventsOf(s3));
    DropoffLeg(s3, trip, tripId, now, location, id3);
  }

  /** The forEach of the complete endpoints, event by event. */
  method MarkEventsComplete(events: seq<Event>, tripId: Uuid, action: EventAction, now: int,
                            location: Option<LatLong>) returns (r: Result<seq<Event>>)
    ensures r == MarkedComplete(events, tripId, action, now, location)
  {
    MarkedCompleteProperties(events, tripId, action, now, location);
    var marked: seq<Event> := [];
    var i := 0;
    while i < |events|
      invariant 0 <= i <= |events| && |marked| == i
      invariant forall j :: 0 <= j < i ==> !Unmarkable(events[j], tripId)
      invariant forall j :: 0 <= j < i ==> marked[j] == Marked(events[j], tripId, action, now, location)
    {
      var e := events[i];
      if e.tripRequestId == Some(tripId) && e.action.None? {
        assert Unmarkable(events[i], tripId);
        return Err(NullPointer);
      }
      marked := marked + [Marked(e, tripId, action, now, location)];
      i := i + 1;
    }
    assert marked == MarkedComplete(events, tripId, action, now, location).value;
    r := Ok(marked);
  }

  /** The shift side of one progress step. */
  method AdvanceShift(shift: Shift, step: ProgressStep, trip: TripRequest, tripId: Uuid, now: int,
                      location: Option<LatLong>, freshId: Uuid) returns (r: Result<Shift>)
    ensures r == AdvancedShift(shift, step, trip, tripId, now, location, freshId)
  {
    if Logs(step) {
      var added := AddOrUpdateEvent(shift, ProgressEvent(step, trip, tripId, now, location), None, freshId);
      r := Ok(added.value);
    } else if shift.events.None? {
      r := Ok(shift);
    } else {
      var marked := MarkEventsComplete(shift.events.value, tripId, StepAction(step), now, location);
      if marked.Err? {
        return Err(marked.error);
      }
      r := Ok(SortEvents(shift.(events := Some(marked.value))));
    }
  }

  /** Saves the advanced shift, and saves it sorted a second time when `again` is set. */
  method StoreShift(db: Repositories, shift: Shift, again: bool)
    requires db.Valid() && shift.id.Some?
    requires again ==> SortEvents(shift) == shift
    modifies db`shifts
    ensures db.Valid()
    ensures db.shifts == old(db.shifts)[shift.id.value := shift]
  {
    db.SaveShift(shift);
    if again {
      db.SaveShift(SortEvents(shift));
    }
  }

  /** A shift advanced without an exception keeps its id and replaces the stored one. */
  lemma AdvancedShiftsAt(shifts: map<Uuid, Shift>, step: ProgressStep, trip: TripRequest, tripId: Uuid, now: int,
                         location: Option<LatLong>, freshId: Uuid)
    requires trip.shiftId.Some? && trip.shiftId.value in shifts
    requires forall k :: k in shifts ==> shifts[k].id == Some(k)
    ensures var next := AdvancedShift(shifts[trip.shiftId.value], step, trip, tripId, now, location, freshId);
            next.Ok? ==>
              next.value.id == trip.shiftId &&
              AdvancedShifts(shifts, step, trip, tripId, now, location, freshId) ==
                Ok(shifts[trip.shiftId.value := next.value])
  {
  }

  /** The dropoff-arrival step leaves its shift sorted, so saving it sorted again changes nothing. */
  lemma DropoffResortUnchanged(shift: Shift, trip: TripRequest, tripId: Uuid, now: int, location: Option<LatLong>,
                               freshId: Uuid)
    ensures var a := AdvancedShift(shift, DropoffArrivedStep, trip, tripId, now, location, freshId);
            a.Ok? && SortEvents(a.value) == a.value
  {
    SortAddedUnchanged(shift, ProgressEvent(DropoffArrivedStep, trip, tripId, now, location), freshId);
  }

  /**
   * The shift part of a progress endpoint: the trip's shift, when set and
   * found, is advanced and saved (the dropoff-arrival endpoint saves it a
   * second time, sorted again, which changes nothing); on an exception
   * nothing is saved.
   */
  method SaveAdvancedShift(db: Repositories, step: ProgressStep, trip: TripRequest, tripId: Uuid, now: int,
                           location: Option<LatLong>, freshId: Uuid) returns (r: Result<map<Uuid, Shift>>)
    requires db.Valid()
    modifies db`shifts
    ensures db.Valid()
    ensures r == AdvancedShifts(old(db.shifts), step, trip, tripId, now, location, freshId)
    ensures db.shifts == if r.Ok? then r.value else old(db.shifts)
  {
    if trip.shiftId.None? || trip.shiftId.value !in db.shifts {
      return Ok(db.shifts);
    }
    var shift := db.shifts[trip.shiftId.value];
    var next := AdvanceShift(shift, step, trip, tripId, now, location, freshId);
    if next.Err? {
      return Err(next.error);
    }
    AdvancedShiftsAt(db.shifts, step, trip, tripId, now, location, freshId);
    if step == DropoffArrivedStep {
      DropoffResortUnchanged(shift, trip, tripId, now, location, freshId);
    }
    StoreShift(db, next.value, step == DropoffArrivedStep);
    r := Ok(db.shifts);
  }

  /**
   * The five progress endpoints. The trip is saved with the step's status
   * first; then its shift, when set and found, is advanced and saved; the
   * dropoff-complete step finally marks the linked partner request
   * complete. A complete step that throws leaves the shift and the partner
   * request as they were, with the trip already saved.
   */
  method Progress(db: Repositories, tripId: Uuid, step: ProgressStep, location: Option<LatLong>,
                  now: int, freshId: Uuid) returns (r: Result<TripRequest>)
    requires db.Valid()
    modifies db`trips, db`shifts, db`partnerRequests
    ensures db.Valid()
    ensures tripId !in old(db.trips) ==>
              r == Err(TripNotFound) && db.trips == old(db.trips) && db.shifts == old(db.shifts) &&
              db.partnerRequests == old(db.partnerRequests)
    ensures tripId in old(db.trips) ==>
              var saved := Progressed(old(db.trips)[tripId], step, now);
              var next := AdvancedShifts(old(db.shifts), step, saved, tripId, now, location, freshId);
              db.trips == old(db.trips)[tripId := saved] &&
              (next.Err? ==> r == Err(next.error) && db.shifts == old(db.shifts) &&
                             db.partnerRequests == old(db.partnerRequests)) &&
              (next.Ok? ==> r == Ok(saved) && db.shifts == next.value &&
                            db.partnerRequests == if step == DropoffCompleteStep
                                                  then PartnerMarked(old(db.partnerRequests), saved, Complete)
                                                  else old(db.partnerRequests))
  {
    if tripId !in db.trips {
      return Err(TripNotFound);
    }
    var saved := Progressed(db.trips[tripId], step, now);
    db.SaveTrip(saved);
    var next := SaveAdvancedShift(db, step, saved, tripId, now, location, freshId);
    if next.Err? {
      return Err(next.error);
    }
    if step == DropoffCompleteStep {
      MarkPartnerRequest(db, saved, Complete);
    }
    r := Ok(saved);
  }

  // ---------------------------------------------------------------------
  // updateTrip

  /** The sixteen fields updateTrip copies from the update when it sets them. */
  datatype TripField =
    | RiderField | FromLocationField | FromNoteField | ToLocationField | ToNoteField | ShiftIdField
    | PassengerCountField | RequestTypeField | PrimaryTimeField | SecondaryTimeField | LeftFloatField
    | RightFloatField | StatusField | ScheduleTypeField | PartnerRequestField | InstructionsField

  /** The two trips agree on field f. */
  predicate SameTripField(a: TripRequest, b: TripRequest, f: TripField)
  {
    match f
    case RiderField => a.riderId == b.riderId
    case FromLocationField => a.fromLocationId == b.fromLocationId
    case FromNoteField => a.fromLocationNote == b.fromLocationNote
    case ToLocationField => a.toLocationId == b.toLocationId
    case ToNoteField => a.toLocationNote == b.toLocationNote
    case ShiftIdField => a.shiftId == b.shiftId
    case PassengerCountField => a.passengerCount == b.passengerCount
    case RequestTypeField => a.tripRequestType == b.tripRequestType
    case PrimaryTimeField => a.primaryTimeConstraint == b.primaryTimeConstraint
    case SecondaryTimeField => a.secondaryTimeConstraint == b.secondaryTimeConstraint
    case LeftFloatField => a.leftFloat == b.leftFloat
    case RightFloatField => a.rightFloat == b.rightFloat
    case StatusField => a.status == b.status
    case ScheduleTypeField => a.scheduleType == b.scheduleType
    case PartnerRequestField => a.partnerTransportationRequestId == b.partnerTransportationRequestId
    case InstructionsField => a.specialInstructions == b.specialInstructions
  }

  /** Field f of the trip is set (non-null). */
  predicate TripFieldSet(t: TripRequest, f: TripField)
  {
    match f
    case RiderField => t.riderId.Some?
    case FromLocationField => t.fromLocationId.Some?
    case FromNoteField => t.fromLocationNote.Some?
    case ToLocationField => t.toLocationId.Some?
    case ToNoteField => t.toLocationNote.Some?
    case ShiftIdField => t.shiftId.Some?
    case PassengerCountField => t.passengerCount.Some?
    case RequestTypeField => t.tripRequestType.Some?
    case PrimaryTimeField => t.primaryTimeConstraint.Some?
    case SecondaryTimeField => t.secondaryTimeConstraint.Some?
    case LeftFloatField => t.leftFloat.Some?
    case RightFloatField => t.rightFloat.Some?
    case StatusField => t.status.Some?
    case ScheduleTypeField => t.scheduleType.Some?
    case PartnerRequestField => t.partnerTransportationRequestId.Some?
    case InstructionsField => t.specialInstructions.Some?
  }

  /** The setter chain of updateTrip: each of the sixteen fields the update sets is copied. */
  function MergeTrip(existing: TripRequest, update: TripRequest): TripRequest
  {
    existing.(
      riderId := if update.riderId.Some? then update.riderId else existing.riderId,
      fromLocationId := if update.fromLocationId.Some? then update.fromLocationId else existing.fromLocationId,
      fromLocationNote := if update.fromLocationNote.Some? then update.fromLocationNote else existing.fromLocationNote,
      toLocationId := if update.toLocationId.Some? then update.toLocationId else existing.toLocationId,
      toLocationNote := if update.toLocationNote.Some? then update.toLocationNote else existing.toLocationNote,
      shiftId := if update.shiftId.Some? then update.shiftId else existing.shiftId,
      passengerCount := if update.passengerCount.Some? then update.passengerCount else existing.passengerCount,
      tripRequestType := if update.tripRequestType.Some? then update.tripRequestType else existing.tripRequestType,
      primaryTimeConstraint := if update.primaryTimeConstraint.Some? then update.primaryTimeConstraint
                               else existing.primaryTimeConstraint,
      secondaryTimeConstraint := if update.secondaryTimeConstraint.Some? then update.secondaryTimeConstraint
                                 else existing.secondaryTimeConstraint,
      leftFloat := if update.leftFloat.Some? then update.leftFloat else existing.leftFloat,
      rightFloat := if update.rightFloat.Some? then update.rightFloat else existing.rightFloat,
      status := if update.status.Some? then update.status else existing.status,
      scheduleType := if update.scheduleType.Some? then update.scheduleType else existing.scheduleType,
      partnerTransportationRequestId := if update.partnerTransportationRequestId.Some?
                                        then update.partnerTransportationRequestId
                                        else existing.partnerTransportationRequestId,
      specialInstructions := if update.specialInstructions.Some? then update.specialInstructions
                             else existing.specialInstructions)
  }

  /** What updateTrip saves: the merge, updated now, with its zones set again from its locations. */
  function UpdatedTrip(existing: TripRequest, update: TripRequest, now: int, places: map<Uuid, Place>): Result<TripRequest>
  {
    SetZones(MergeTrip(existing, update).(lastUpdated := Some(now)), places)
  }

  /**
   * The update fails, with IllegalArgumentException, exactly when the
   * merged trip lacks a location. Otherwise every field the update sets
   * is taken from it and every other of the sixteen is kept, the id and
   * creation time stay, the trip is updated now, and its zones are those
   * of its (possibly new) locations; applying the same update again gives
   * the same trip.
   */
  lemma UpdatedTripProperties(existing: TripRequest, update: TripRequest, now: int, places: map<Uuid, Place>)
    ensures var r := UpdatedTrip(existing, update, now, places);
            (r.Ok? <==> (update.fromLocationId.Some? || existing.fromLocationId.Some?) &&
                        (update.toLocationId.Some? || existing.toLocationId.Some?)) &&
            (r.Err? ==> r.error == IllegalArgument) &&
            (r.Ok? ==>
               (forall f :: TripFieldSet(update, f) ==> SameTripField(r.value, update, f)) &&
               (forall f :: !TripFieldSet(update, f) ==> SameTripField(r.value, existing, f)) &&
               r.value.id == existing.id && r.value.created == existing.created &&
               r.value.lastUpdated == Some(now) &&
               r.value.fromZoneId == ZoneOf(places, r.value.fromLocationId.value) &&
               r.value.toZoneId == ZoneOf(places, r.value.toLocationId.value) &&
               UpdatedTrip(r.value, update, now, places) == r)
  {
    var merged := MergeTrip(existing, update).(lastUpdated := Some(now));
    var r := UpdatedTrip(existing, update, now, places);
    if r.Ok? {
      assert r.value.(fromZoneId := merged.fromZoneId, toZoneId := merged.toZoneId) == merged;
      assert MergeTrip(r.value, update).(lastUpdated := Some(now)) == r.value;
    }
  }

  /**
   * updateTrip: `findById(null)` throws IllegalArgumentException, an
   * unknown id is "Trip not found"; otherwise the updated trip is saved
   * and returned, unless its zones cannot be set, when nothing is saved.
   */
  method UpdateTrip(db: Repositories, update: TripRequest, now: int) returns (r: Result<TripRequest>)
    requires db.Valid()
    modifies db`trips
    ensures db.Valid()
    ensures update.id.None? ==> r == Err(IllegalArgument)
    ensures update.id.Some? && update.id.value !in old(db.trips) ==> r == Err(TripNotFound)
    ensures update.id.Some? && update.id.value in old(db.trips) ==>
              r == UpdatedTrip(old(db.trips)[update.id.value], update, now, db.places)
    ensures db.trips == if r.Ok? then old(db.trips)[update.id.value := r.value] else old(db.trips)
  {
    if update.id.None? {
      return Err(IllegalArgument);
    }
    var id := update.id.value;
    if id !in db.trips {
      return Err(TripNotFound);
    }
    var existing := db.trips[id];
    r := UpdatedTrip(existing, update, now, db.places);
    if r.Ok? {
      UpdatedTripProperties(existing, update, now, db.places);
      db.SaveTrip(r.value);
    }
  }

  // ---------------------------------------------------------------------
  // requestTrip

  /** The trip requestTrip saves: the validated request under a fresh id, NEW unless a status is given, created and updated now. */
  function Requested(valid: TripRequest, freshId: Uuid, now: int): (t: TripRequest)
  {
    valid.(id := Some(freshId), status := Some(GetOrDefault(valid.status, New)),
           created := Some(now), lastUpdated := Some(now))
  }

  /**
   * requestTrip: an invalid request saves nothing. A valid one is saved
   * under a fresh id with its shift id already set, so the assignment that
   * follows finds it on that shift and does nothing: no shift changes and
   * no pickup or dropoff event is created. A shift id naming no shift is
   * "Shift not found", with the trip already saved.
   */
  method RequestTrip(db: Repositories, request: TripRequest, now: int, freshId: Uuid) returns (r: Result<TripRequest>)
    requires db.Valid()
    modifies db`trips, db`shifts
    ensures db.Valid()
    ensures db.shifts == old(db.shifts)
    ensures var v := ValidateTripRequest(request, db.places, db.users, db.groups, now);
            (v.Err? ==> r == Err(v.error) && db.trips == old(db.trips)) &&
            (v.Ok? ==> var stored := Requested(v.value, freshId, now);
                       db.trips == old(db.trips)[freshId := stored] &&
                       r == if stored.shiftId.Some? && stored.shiftId.value !in old(db.shifts)
                            then Err(ShiftNotFound) else Ok(stored))
  {
    var v := ValidateTripRequest(request, db.places, db.users, db.groups, now);
    if v.Err? {
      return Err(v.error);
    }
    var stored := Requested(v.value, freshId, now);
    db.SaveTrip(stored);
    if stored.shiftId.Some? {
      r := AssignTripToShift(db, freshId, stored.shiftId.value, None, now, freshId, freshId);
    } else {
      r := Ok(stored);
    }
  }

  // ---------------------------------------------------------------------
  // getUpcomingTrips

  /**
   * The three filters of getUpcomingTrips: not the active trip (an active
   * trip without an id excludes nothing), still ahead of `now`, not complete.
   */
  function Upcoming(activeId: Option<Uuid>, now: int): TripRequest -> bool
  {
    (t: TripRequest) => (activeId.None? || t.id != activeId) && PrimaryTime(t) > now && t.status != Some(TripComplete)
  }

  /** A trip of the rider that the filters of getUpcomingTrips keep. */
  predicate IsUpcoming(riderTrips: seq<TripRequest>, now: int, t: TripRequest)
  {
    var active := ActiveTripForRider(riderTrips, now);
    t in riderTrips && PrimaryTime(t) > now && t.status != Some(TripComplete) &&
    (active.None? || active.value.id.None? || t.id != active.value.id)
  }

  /** The rider's trips that pass the three filters, sorted by primary time. */
  function UpcomingKept(riderTrips: seq<TripRequest>, now: int): seq<TripRequest>
  {
    var active := ActiveTripForRider(riderTrips, now);
    var activeId := if active.Some? then active.value.id else None;
    SortBy(Filter(riderTrips, Upcoming(activeId, now)), ByPrimaryTime)
  }

  /**
   * The response record of withLocationsAndDriverDetails, less its driver
   * details: the trip with its two stored places and their zones.
   */
  datatype LocatedTrip = LocatedTrip(trip: TripRequest, fromLocation: Place, toLocation: Place,
                                     fromZoneId: Option<Uuid>, toZoneId: Option<Uuid>)

  /**
   * withLocationsAndDriverDetails: `findById` of a null location id throws;
   * when either place is not stored the entry is null.
   */
  function WithLocations(places: map<Uuid, Place>, t: TripRequest): (r: Result<Option<LocatedTrip>>)
    ensures r.Err? <==> t.fromLocationId.None? || t.toLocationId.None?
    ensures r.Err? ==> r.error == IllegalArgument
    ensures r.Ok? ==> (r.value.Some? <==> t.fromLocationId.value in places && t.toLocationId.value in places)
    ensures r.Ok? && r.value.Some? ==>
              var l := r.value.value;
              l.trip == t && l.fromLocation == places[t.fromLocationId.value] &&
              l.toLocation == places[t.toLocationId.value] &&
              l.fromZoneId == l.fromLocation.zoneId && l.toZoneId == l.toLocation.zoneId
  {
    if t.fromLocationId.None? || t.toLocationId.None? then Err(IllegalArgument)
    else if t.fromLocationId.value in places && t.toLocationId.value in places then
      var from := places[t.fromLocationId.value];
      var to := places[t.toLocationId.value];
      Ok(Some(LocatedTrip(t, from, to, from.zoneId, to.zoneId)))
    else Ok(None)
  }

  /** `.map(this::withLocationsAndDriverDetails)` over the sorted trips, the first throw ending the stream. */
  function WithLocationsAll(places: map<Uuid, Place>, ts: seq<TripRequest>): (r: Result<seq<Option<LocatedTrip>>>)
    ensures r.Err? <==> exists t :: t in ts && (t.fromLocationId.None? || t.toLocationId.None?)
    ensures r.Err? ==> r.error == IllegalArgument
    ensures r.Ok? ==> |r.value| == |ts| && forall i :: 0 <= i < |ts| ==> WithLocations(places, ts[i]) == Ok(r.value[i])
  {
    if ts == [] then Ok([])
    else
      assert forall t :: t in ts <==> t == ts[0] || t in ts[1..];
      var first := WithLocations(places, ts[0]);
      if first.Err? then Err(first.error)
      else
        var rest := WithLocationsAll(places, ts[1..]);
        if rest.Err? then rest else Ok([first.value] + rest.value)
  }

  /**
   * getUpcomingTrips over the rider's trips and the stored places:
   * `Optional.of(id)` throws on a trip without an id while the filters
   * run; then each kept trip, by primary time, is given its places.
   */
  function UpcomingTrips(riderTrips: seq<TripRequest>, places: map<Uuid, Place>, now: int): Result<seq<Option<LocatedTrip>>>
  {
    if exists i :: 0 <= i < |riderTrips| && riderTrips[i].id.None? then Err(NullPointer)
    else WithLocationsAll(places, UpcomingKept(riderTrips, now))
  }

  /** What the filters and the sort keep: exactly the upcoming trips, by primary time, never the active one. */
  lemma UpcomingKeptCorrect(riderTrips: seq<TripRequest>, now: int)
    ensures var k := UpcomingKept(riderTrips, now);
            var active := ActiveTripForRider(riderTrips, now);
            SortedBy(k, ByPrimaryTime) &&
            (forall t :: t in k <==> IsUpcoming(riderTrips, now, t)) &&
            (active.Some? && active.value.id.Some? ==> active.value !in k)
  {
    var k := UpcomingKept(riderTrips, now);
    var active := ActiveTripForRider(riderTrips, now);
    var activeId := if active.Some? then active.value.id else None;
    var kept := Filter(riderTrips, Upcoming(activeId, now));
    assert k == SortBy(kept, ByPrimaryTime);
    FilterMembers(riderTrips, Upcoming(activeId, now));
    assert SortedBy(k, ByPrimaryTime) by {
      assert TotalPreorder(ByPrimaryTime);
      SortBySorted(kept, ByPrimaryTime);
    }
    forall t ensures t in k <==> IsUpcoming(riderTrips, now, t) {
      assert t in k <==> t in multiset(k);
      assert t in kept <==> t in riderTrips && Upcoming(activeId, now)(t);
    }
  }

  /**
   * The query fails with an NPE exactly when one of the rider's trips has
   * no id, and otherwise with IllegalArgument exactly when an upcoming
   * trip lacks a location id.
   */
  lemma UpcomingTripsFails(riderTrips: seq<TripRequest>, places: map<Uuid, Place>, now: int)
    ensures var r := UpcomingTrips(riderTrips, places, now);
            (r.Err? && r.error == NullPointer <==> exists t :: t in riderTrips && t.id.None?) &&
            (r.Err? && r.error == IllegalArgument <==>
               (forall t :: t in riderTrips ==> t.id.Some?) &&
               exists t :: IsUpcoming(riderTrips, now, t) && (t.fromLocationId.None? || t.toLocationId.None?)) &&
            (r.Err? ==> r.error == NullPointer || r.error == IllegalArgument)
  {
    UpcomingKeptCorrect(riderTrips, now);
    if exists t :: t in riderTrips && t.id.None? {
      var t :| t in riderTrips && t.id.None?;
      var i :| 0 <= i < |riderTrips| && riderTrips[i] == t;
    }
  }

  /**
   * Otherwise it lists one entry per upcoming trip, by primary time: null
   * where a place of the trip is not stored, else the trip with its places.
   */
  lemma UpcomingTripsListed(riderTrips: seq<TripRequest>, places: map<Uuid, Place>, now: int)
    ensures var r := UpcomingTrips(riderTrips, places, now);
            var k := UpcomingKept(riderTrips, now);
            r.Ok? ==>
              SortedBy(k, ByPrimaryTime) &&
              (forall t :: t in k <==> IsUpcoming(riderTrips, now, t)) &&
              (ActiveTripForRider(riderTrips, now).Some? ==> ActiveTripForRider(riderTrips, now).value !in k) &&
              |r.value| == |k| &&
              forall i :: 0 <= i < |k| ==>
                k[i].fromLocationId.Some? && k[i].toLocationId.Some? &&
                (r.value[i].None? <==> k[i].fromLocationId.value !in places || k[i].toLocationId.value !in places) &&
                (r.value[i].Some? ==> r.value[i].value.trip == k[i] &&
                                      r.value[i].value.fromLocation == places[k[i].fromLocationId.value] &&
                                      r.value[i].value.toLocation == places[k[i].toLocationId.value])
  {
    UpcomingKeptCorrect(riderTrips, now);
    ActiveTripForRiderCorrect(riderTrips, now);
  }

  // ---------------------------------------------------------------------
  // getArchivedTrips

  function OfRider(riderId: Option<Uuid>): TripRequest -> bool
  {
    (t: TripRequest) => t.riderId == riderId
  }

  function FromZone(zoneId: Option<Uuid>): TripRequest -> bool
  {
    (t: TripRequest) => t.fromZoneId == zoneId
  }

  function ToZone(zoneId: Option<Uuid>): TripRequest -> bool
  {
    (t: TripRequest) => t.toZoneId == zoneId
  }

  function TouchesZone(zoneId: Option<Uuid>): TripRequest -> bool
  {
    (t: TripRequest) => t.fromZoneId == zoneId || t.toZoneId == zoneId
  }

  /** A trip on which the rider-and-zone filter throws: no from zone, or no to zone when the from zone differs. */
  predicate ZoneTestThrows(t: TripRequest, zoneId: Option<Uuid>)
  {
    t.fromZoneId.None? || (t.fromZoneId != zoneId && t.toZoneId.None?)
  }

  /**
   * The rider-and-zone filter, `getFromZoneId().equals(..) ||
   * getToZoneId().equals(..)`: the first trip it throws on ends the query.
   */
  function InZone(s: seq<TripRequest>, zoneId: Option<Uuid>): (r: Result<seq<TripRequest>>)
    decreases |s|
  {
    if s == [] then Ok([])
    else if ZoneTestThrows(s[0], zoneId) then Err(NullPointer)
    else
      var rest :- InZone(s[1..], zoneId);
      Ok((if s[0].fromZoneId == zoneId || s[0].toZoneId == zoneId then [s[0]] else []) + rest)
  }

  /** The filter throws exactly when one of the trips makes it throw; otherwise it keeps the trips that touch the zone. */
  lemma {:induction false} InZoneProperties(s: seq<TripRequest>, zoneId: Option<Uuid>)
    ensures var r := InZone(s, zoneId);
            (r.Err? <==> exists i :: 0 <= i < |s| && ZoneTestThrows(s[i], zoneId)) &&
            (r.Err? ==> r.error == NullPointer) &&
            (r.Ok? ==> r.value == Filter(s, TouchesZone(zoneId)))
    decreases |s|
  {
    if s != [] && ZoneTestThrows(s[0], zoneId) {
      assert ZoneTestThrows(s[0], zoneId);
    } else if s != [] {
      var tail := s[1..];
      InZoneProperties(tail, zoneId);
      if exists i :: 0 <= i < |s| && ZoneTestThrows(s[i], zoneId) {
        var i :| 0 <= i < |s| && ZoneTestThrows(s[i], zoneId);
        assert tail[i - 1] == s[i];
      }
      if exists i :: 0 <= i < |tail| && ZoneTestThrows(tail[i], zoneId) {
        var i :| 0 <= i < |tail| && ZoneTestThrows(tail[i], zoneId);
        assert s[i + 1] == tail[i];
      }
    }
  }

  /** The unfiltered candidates of getArchivedTrips, by which of rider and zone are given. */
  function ArchiveSources(live: seq<TripRequest>, archive: seq<TripRequest>, users: map<Uuid, User>,
                          zones: map<Uuid, Zone>, zoneId: Option<Uuid>, riderId: Option<Uuid>): Result<seq<TripRequest>>
  {
    if riderId.Some? then
      if riderId.value !in users then Err(NotFound("Rider not found"))
      else
        var rider := users[riderId.value].id;
        var mine := Filter(live, OfRider(rider)) + Filter(archive, OfRider(rider));
        if zoneId.None? then Ok(mine)
        else if zoneId.value !in zones then Err(NotFound("Zone not found"))
        else InZone(mine, zones[zoneId.value].id)
    else if zoneId.Some? then
      if zoneId.value !in zones then Err(NotFound("Zone not found"))
      else
        var z := zones[zoneId.value].id;
        Ok(Filter(live, FromZone(z)) + Filter(live, ToZone(z)) + Filter(archive, FromZone(z)) + Filter(archive, ToZone(z)))
    else Ok(live + archive)
  }

  /** The date filter: the trip's date at its own offset (UTC here) in the half-open range [lo, hi). */
  function InDates(lo: int, hi: int): TripRequest -> bool
  {
    (t: TripRequest) => lo <= DateAt(PrimaryTime(t), 0) < hi
  }

  function Accessible(canAccess: Option<Uuid> -> bool): TripRequest -> bool
  {
    (t: TripRequest) => canAccess(t.id)
  }

  /**
   * getArchivedTrips over the live and archived trips (in repository
   * order), the users and zones, and the caller's `canAccessTripRequest`:
   * the candidates without duplicates, visible to the caller, dated in
   * the range, by primary time.
   */
  function ArchivedTrips(live: seq<TripRequest>, archive: seq<TripRequest>, users: map<Uuid, User>,
                         zones: map<Uuid, Zone>, from: Option<int>, to: Option<int>, zoneId: Option<Uuid>,
                         riderId: Option<Uuid>, canAccess: Option<Uuid> -> bool): Result<seq<TripRequest>>
  {
    var candidates :- ArchiveSources(live, archive, users, zones, zoneId, riderId);
    var dates := MinMaxDates(from, to);
    Ok(SortBy(Filter(Filter(Distinct(candidates), Accessible(canAccess)), InDates(dates.0, dates.1)), ByPrimaryTime))
  }

  /**
   * The trips getArchivedTrips selects before its stream filters: live or
   * archived, the given rider's when a rider is given, and starting or
   * ending in the given zone when a zone is given.
   */
  predicate Selected(live: seq<TripRequest>, archive: seq<TripRequest>, users: map<Uuid, User>,
                     zones: map<Uuid, Zone>, zoneId: Option<Uuid>, riderId: Option<Uuid>, t: TripRequest)
  {
    (t in live || t in archive) &&
    (riderId.Some? ==> riderId.value in users && t.riderId == users[riderId.value].id) &&
    (zoneId.Some? ==> zoneId.value in zones && (t.fromZoneId == zones[zoneId.value].id || t.toZoneId == zones[zoneId.value].id))
  }

  /** With a rider and a zone, some trip of the rider makes the zone test throw. */
  ghost predicate RiderZoneThrows(live: seq<TripRequest>, archive: seq<TripRequest>, users: map<Uuid, User>,
                            zones: map<Uuid, Zone>, zoneId: Option<Uuid>, riderId: Option<Uuid>)
  {
    riderId.Some? && riderId.value in users && zoneId.Some? && zoneId.value in zones &&
    exists t :: (t in live || t in archive) && t.riderId == users[riderId.value].id &&
                ZoneTestThrows(t, zones[zoneId.value].id)
  }

  /**
   * An unknown rider is "Rider not found" and, for a known or no rider, an
   * unknown zone "Zone not found"; with both known, a trip of the rider
   * without the zone ids the test reads is a NullPointerException.
   * Otherwise the candidates are exactly the selected trips, and with
   * neither rider nor zone they are all live trips, then all archived ones.
   */
  lemma ArchiveSourcesCorrect(live: seq<TripRequest>, archive: seq<TripRequest>, users: map<Uuid, User>,
                              zones: map<Uuid, Zone>, zoneId: Option<Uuid>, riderId: Option<Uuid>)
    ensures var r := ArchiveSources(live, archive, users, zones, zoneId, riderId);
            (riderId.Some? && riderId.value !in users ==> r == Err(NotFound("Rider not found"))) &&
            ((riderId.None? || riderId.value in users) && zoneId.Some? && zoneId.value !in zones ==>
               r == Err(NotFound("Zone not found"))) &&
            (RiderZoneThrows(live, archive, users, zones, zoneId, riderId) ==> r == Err(NullPointer)) &&
            (((riderId.None? || riderId.value in users) && (zoneId.None? || zoneId.value in zones) &&
              !RiderZoneThrows(live, archive, users, zones, zoneId, riderId)) ==> r.Ok?) &&
            (r.Ok? ==> forall t :: t in r.value <==> Selected(live, archive, users, zones, zoneId, riderId, t)) &&
            (riderId.None? && zoneId.None? ==> r == Ok(live + archive))
  {
    var r := ArchiveSources(live, archive, users, zones, zoneId, riderId);
    if riderId.Some? && riderId.value in users {
      var rider := users[riderId.value].id;
      var mine := Filter(live, OfRider(rider)) + Filter(archive, OfRider(rider));
      FilterMembers(live, OfRider(rider));
      FilterMembers(archive, OfRider(rider));
      assert forall t :: t in mine <==> (t in live || t in archive) && t.riderId == rider;
      if zoneId.Some? && zoneId.value in zones {
        var z := zones[zoneId.value].id;
        InZoneProperties(mine, z);
        if r.Ok? {
          FilterMembers(mine, TouchesZone(z));
        }
        if RiderZoneThrows(live, archive, users, zones, zoneId, riderId) {
          var t :| (t in live || t in archive) && t.riderId == rider && ZoneTestThrows(t, z);
          var i :| 0 <= i < |mine| && mine[i] == t;
        } else {
          forall i | 0 <= i < |mine| ensures !ZoneTestThrows(mine[i], z) {
            assert mine[i] in mine;
          }
        }
      }
    } else if r.Ok? && zoneId.Some? {
      var z := zones[zoneId.value].id;
      FilterMembers(live, FromZone(z));
      FilterMembers(live, ToZone(z));
      FilterMembers(archive, FromZone(z));
      FilterMembers(archive, ToZone(z));
    }
  }

  /**
   * The stream after the candidates (distinct, visible, in the date range,
   * sorted) lists each visible candidate dated in the range exactly once,
   * by primary time.
   */
  lemma ArchivePipeline(c: seq<TripRequest>, canAccess: Option<Uuid> -> bool, lo: int, hi: int)
    ensures var r := SortBy(Filter(Filter(Distinct(c), Accessible(canAccess)), InDates(lo, hi)), ByPrimaryTime);
            SortedBy(r, ByPrimaryTime) && NoDuplicates(r) &&
            forall t :: t in r <==> t in c && canAccess(t.id) && lo <= DateAt(PrimaryTime(t), 0) < hi
  {
    var d := Distinct(c);
    var visible := Filter(d, Accessible(canAccess));
    var dated := Filter(visible, InDates(lo, hi));
    DatedMembers(c, canAccess, lo, hi);
    SortByMembers(dated, ByPrimaryTime);
    ByPrimaryTimeTotal();
    SortBySorted(dated, ByPrimaryTime);
    DistinctProperties(c);
    NoDuplicatesKept(d, Accessible(canAccess), ByPrimaryTime);
    NoDuplicatesKept(visible, InDates(lo, hi), ByPrimaryTime);
    NoDuplicatesKept(dated, InDates(lo, hi), ByPrimaryTime);
  }

  /** The candidates that survive the distinct, access and date filters. */
  lemma DatedMembers(c: seq<TripRequest>, canAccess: Option<Uuid> -> bool, lo: int, hi: int)
    ensures forall t :: t in Filter(Filter(Distinct(c), Accessible(canAccess)), InDates(lo, hi)) <==>
                          t in c && canAccess(t.id) && lo <= DateAt(PrimaryTime(t), 0) < hi
  {
    var d := Distinct(c);
    var visible := Filter(d, Accessible(canAccess));
    DistinctProperties(c);
    FilterMembers(d, Accessible(canAccess));
    FilterMembers(visible, InDates(lo, hi));
  }

  /**
   * getArchivedTrips: the lookup errors and the zone test's exception as
   * above; a result lists, once each and by primary time, exactly the
   * selected trips that the caller may access and whose date is in the
   * range.
   */
  lemma ArchivedTripsCorrect(live: seq<TripRequest>, archive: seq<TripRequest>, users: map<Uuid, User>,
                             zones: map<Uuid, Zone>, from: Option<int>, to: Option<int>, zoneId: Option<Uuid>,
                             riderId: Option<Uuid>, canAccess: Option<Uuid> -> bool)
    ensures var r := ArchivedTrips(live, archive, users, zones, from, to, zoneId, riderId, canAccess);
            var dates := MinMaxDates(from, to);
            (riderId.Some? && riderId.value !in users ==> r == Err(NotFound("Rider not found"))) &&
            ((riderId.None? || riderId.value in users) && zoneId.Some? && zoneId.value !in zones ==>
               r == Err(NotFound("Zone not found"))) &&
            (RiderZoneThrows(live, archive, users, zones, zoneId, riderId) ==> r == Err(NullPointer)) &&
            (((riderId.None? || riderId.value in users) && (zoneId.None? || zoneId.value in zones) &&
              !RiderZoneThrows(live, archive, users, zones, zoneId, riderId)) ==> r.Ok?) &&
            (r.Ok? ==> SortedBy(r.value, ByPrimaryTime) && NoDuplicates(r.value) &&
                       forall t :: t in r.value <==>
                         Selected(live, archive, users, zones, zoneId, riderId, t) && canAccess(t.id) &&
                         dates.0 <= DateAt(PrimaryTime(t), 0) < dates.1)
  {
    ArchiveSourcesCorrect(live, archive, users, zones, zoneId, riderId);
    var src := ArchiveSources(live, archive, users, zones, zoneId, riderId);
    if src.Ok? {
      var dates := MinMaxDates(from, to);
      ArchivePipeline(src.value, canAccess, dates.0, dates.1);
    }
  }

  // ---------------------------------------------------------------------
  // getTripsForDriver

  /** The comparator of both `max` calls: a shift without a creation time counts as the greater. */
  function CreatedCompare(a: Shift, b: Shift): int
  {
    if a.created.None? then 1
    else if b.created.None? then -1
    else Sign(a.created.value - b.created.value)
  }

  /** Stream.max as it folds: the running value stays unless the comparator puts it below the next shift. */
  function NewestFrom(acc: Shift, s: seq<Shift>): Shift
    decreases |s|
  {
    if s == [] then acc
    else NewestFrom(if CreatedCompare(acc, s[0]) >= 0 then acc else s[0], s[1..])
  }

  /**
   * The fold ends on a shift it was given. A running value without a
   * creation time is never replaced; otherwise the first shift without one
   * wins; and when every shift has one, the result's is the latest.
   */
  lemma {:induction false} NewestFromProperties(acc: Shift, s: seq<Shift>)
    ensures var r := NewestFrom(acc, s);
            (r == acc || r in s) &&
            (acc.created.None? ==> r == acc) &&
            (forall i :: (0 <= i < |s| && acc.created.Some? && s[i].created.None? &&
                          (forall j :: 0 <= j < i ==> s[j].created.Some?)) ==> r == s[i]) &&
            ((exists x :: x in s && x.created.None?) ==> r.created.None?) &&
            (acc.created.Some? && (forall x :: x in s ==> x.created.Some?) ==>
               r.created.Some? && acc.created.value <= r.created.value &&
               forall x :: x in s ==> x.created.value <= r.created.value)
    decreases |s|
  {
    if s != [] {
      var next := if CreatedCompare(acc, s[0]) >= 0 then acc else s[0];
      var tail := s[1..];
      NewestFromProperties(next, tail);
      forall i | 0 <= i < |s| && acc.created.Some? && s[i].created.None? &&
                 (forall j :: 0 <= j < i ==> s[j].created.Some?)
        ensures NewestFrom(acc, s) == s[i]
      {
        if i > 0 {
          assert tail[i - 1] == s[i];
          assert s[0].created.Some?;
          forall j | 0 <= j < i - 1 ensures tail[j].created.Some? {
            assert tail[j] == s[j + 1];
          }
        }
      }
      if exists x :: x in s && x.created.None? {
        var x :| x in s && x.created.None?;
        if x != s[0] {
          assert x in tail;
        }
      }
      forall x | x in s ensures x == s[0] || x in tail { }
    }
  }

  /** `max` of a non-empty stream of shifts. */
  function Newest(s: seq<Shift>): Shift
    requires s != []
  {
    NewestFrom(s[0], s[1..])
  }

  /** The window test of getTripsForDriver; an unset start or end stands for `now`, so it never passes. */
  predicate Current(shift: Shift, now: int)
  {
    GetOrDefault(shift.startTime, now) < now && GetOrDefault(shift.endTime, now) > now
  }

  /** The shift getTripsForDriver reads: the newest current active shift, else the newest active one. */
  function ChosenShift(driverShifts: seq<Shift>, now: int): Option<Shift>
  {
    var active := Filter(driverShifts, (s: Shift) => s.active == Some(true));
    var current := Filter(active, (s: Shift) => Current(s, now));
    if current != [] then Some(Newest(current))
    else if active != [] then Some(Newest(active))
    else None
  }

  /**
   * No shift is chosen exactly when the driver has no active shift. The
   * chosen shift is one of the driver's active shifts; it is current when
   * any active shift is; and when it has a creation time, every active
   * shift that is current exactly when it is has one too, no later.
   */
  lemma ChosenShiftCorrect(driverShifts: seq<Shift>, now: int)
    ensures var r := ChosenShift(driverShifts, now);
            (r.None? <==> forall x :: x in driverShifts ==> x.active != Some(true)) &&
            (r.Some? ==>
               r.value in driverShifts && r.value.active == Some(true) &&
               ((exists x :: x in driverShifts && x.active == Some(true) && Current(x, now)) ==> Current(r.value, now)) &&
               (r.value.created.Some? ==>
                  forall x :: x in driverShifts && x.active == Some(true) && Current(x, now) == Current(r.value, now) ==>
                                x.created.Some? && x.created.value <= r.value.created.value))
  {
    var isActive := (s: Shift) => s.active == Some(true);
    var isCurrent := (s: Shift) => Current(s, now);
    var active := Filter(driverShifts, isActive);
    var current := Filter(active, isCurrent);
    FilterMembers(driverShifts, isActive);
    FilterMembers(active, isCurrent);
    var pool := if current != [] then current else active;
    if pool != [] {
      NewestFromProperties(pool[0], pool[1..]);
      var r := Newest(pool);
      assert r in pool;
      forall x | x in pool ensures x == pool[0] || x in pool[1..] { }
      if r.created.Some? {
        assert forall x :: x in pool ==> x.created.Some?;
      }
      if current == [] {
        forall x | x in driverShifts && x.active == Some(true) ensures !Current(x, now) {
          assert x in active;
        }
      }
    }
  }

  /** `findAllById(ids)` on the key-value store: the stored trip of each id, one per occurrence of the id, in the order of the ids. */
  function FoundById(ids: seq<Uuid>, trips: map<Uuid, TripRequest>): (r: seq<TripRequest>)
    ensures |r| <= |ids|
  {
    if ids == [] then []
    else (if ids[0] in trips then [trips[ids[0]]] else []) + FoundById(ids[1..], trips)
  }

  lemma {:induction false} FoundByIdMembers(ids: seq<Uuid>, trips: map<Uuid, TripRequest>)
    ensures forall t :: t in FoundById(ids, trips) <==> exists id :: id in ids && id in trips && trips[id] == t
  {
    if ids != [] {
      FoundByIdMembers(ids[1..], trips);
      forall t ensures t in FoundById(ids, trips) <==> exists id :: id in ids && id in trips && trips[id] == t {
        if exists id :: id in ids && id in trips && trips[id] == t {
          var id :| id in ids && id in trips && trips[id] == t;
          if id != ids[0] {
            assert id in ids[1..];
          }
        }
      }
    }
  }

  /** getTripsForDriver over the driver's shifts and the trip repository. */
  function TripsForDriver(driverShifts: seq<Shift>, trips: map<Uuid, TripRequest>, now: int): Result<seq<TripRequest>>
  {
    match ChosenShift(driverShifts, now)
    case None => Err(NotFound("No active shift for driver"))
    case Some(shift) => Ok(SortBy(FoundById(GetOrDefault(shift.trips, []), trips), ByPrimaryTime))
  }

  /**
   * The query fails, "No active shift for driver", exactly when the driver
   * has no active shift; otherwise it lists by primary time exactly the
   * stored trips whose ids the chosen shift holds.
   */
  lemma TripsForDriverCorrect(driverShifts: seq<Shift>, trips: map<Uuid, TripRequest>, now: int)
    ensures var r := TripsForDriver(driverShifts, trips, now);
            (r.Err? <==> forall x :: x in driverShifts ==> x.active != Some(true)) &&
            (r.Err? ==> r.error == NotFound("No active shift for driver")) &&
            (r.Ok? ==> var chosen := ChosenShift(driverShifts, now).value;
                       SortedBy(r.value, ByPrimaryTime) &&
                       forall t :: t in r.value <==>
                         exists id :: id in GetOrDefault(chosen.trips, []) && id in trips && trips[id] == t)
  {
    ChosenShiftCorrect(driverShifts, now);
    var chosen := ChosenShift(driverShifts, now);
    if chosen.Some? {
      var ids := GetOrDefault(chosen.value.trips, []);
      var found := FoundById(ids, trips);
      FoundByIdMembers(ids, trips);
      assert TotalPreorder(ByPrimaryTime);
      SortBySorted(found, ByPrimaryTime);
      forall t ensures t in SortBy(found, ByPrimaryTime) <==> t in found {
        assert t in SortBy(found, ByPrimaryTime) <==> t in multiset(SortBy(found, ByPrimaryTime));
      }
    }
  }
}

// The service's repositories. Each Spring Data repository the modelled code uses
// becomes a field of one object: a map from id to record where only
// lookup by id matters, a sequence where the order of a query's answer
// matters (groups by parent, drivers by user).
module Store {
  import opened Common
  import opened Model

  class Repositories {
    var shifts: map<Uuid, Shift>
    var shiftArchive: map<Uuid, Shift>
    var trips: map<Uuid, TripRequest>
    var tripArchive: map<Uuid, TripRequest>
    var partnerRequests: map<Uuid, PartnerTransportationRequest>
    var users: map<Uuid, User>
    var places: map<Uuid, Place>
    var groups: seq<Group>
    var blobs: map<Uuid, DataBlob>
    var zones: map<Uuid, Zone>

    /** Every record is stored under its own id, and no two groups share an id. */
    ghost predicate Valid()
      reads this
    {
      ShiftsKeyed() && ShiftArchiveKeyed() && TripsKeyed() && TripArchiveKeyed() &&
      PartnerRequestsKeyed() && UsersKeyed() && PlacesKeyed() && BlobsKeyed() && GroupIdsDistinct()
    }

    // One conjunct per repository, each reading only its own field, so
    // that saving into one repository leaves the others' conjuncts as they were.

    ghost predicate ShiftsKeyed() reads this`shifts
    { forall k :: k in shifts ==> shifts[k].id == Some(k) }

    ghost predicate ShiftArchiveKeyed() reads this`shiftArchive
    { forall k :: k in shiftArchive ==> shiftArchive[k].id == Some(k) }

    ghost predicate TripsKeyed() reads this`trips
    { forall k :: k in trips ==> trips[k].id == Some(k) }

    ghost predicate TripArchiveKeyed() reads this`tripArchive
    { forall k :: k in tripArchive ==> tripArchive[k].id == Some(k) }

    ghost predicate PartnerRequestsKeyed() reads this`partnerRequests
    { forall k :: k in partnerRequests ==> partnerRequests[k].id == Some(k) }

    ghost predicate UsersKeyed() reads this`users
    { forall k :: k in users ==> users[k].id == Some(k) }

    ghost predicate PlacesKeyed() reads this`places
    { forall k :: k in places ==> places[k].id == Some(k) }

    ghost predicate BlobsKeyed() reads this`blobs
    { forall k :: k in blobs ==> blobs[k].id == Some(k) }

    ghost predicate GroupIdsDistinct() reads this`groups
    { forall i, j :: 0 <= i < j < |groups| ==> groups[i].id != groups[j].id }

    /** Empty repositories. */
    constructor ()
      ensures Valid()
      ensures shifts == map[] && shiftArchive == map[] && trips == map[] && tripArchive == map[]
      ensures partnerRequests == map[] && users == map[] && places == map[]
      ensures groups == [] && blobs == map[] && zones == map[]
    {
      shifts, shiftArchive, trips, tripArchive := map[], map[], map[], map[];
      partnerRequests, users, places := map[], map[], map[];
      groups, blobs, zones := [], map[], map[];
    }

    /** `shiftRepository.save(shift)` for a shift that has an id. */
    method SaveShift(shift: Shift)
      requires Valid() && shift.id.Some?
      modifies this`shifts
      ensures Valid()
      ensures shifts == old(shifts)[shift.id.value := shift]
    {
      shifts := shifts[shift.id.value := shift];
    }

    /** `tripRepository.save(trip)` for a trip that has an id. */
    method SaveTrip(trip: TripRequest)
      requires Valid() && trip.id.Some?
      modifies this`trips
      ensures Valid()
      ensures trips == old(trips)[trip.id.value := trip]
    {
      trips := trips[trip.id.value := trip];
    }
    /** `userRepository.save(user)` for a user that has an id. */
    method SaveUser(user: User)
      requires Valid() && user.id.Some?
      modifies this`users
      ensures Valid()
      ensures users == old(users)[user.id.value := user]
    {
      users := users[user.id.value := user];
    }

    /** `placeRepository.save(place)` for a place that has an id. */
    method SavePlace(place: Place)
      requires Valid() && place.id.Some?
      modifies this`places
      ensures Valid()
      ensures places == old(places)[place.id.value := place]
    {
      places := places[place.id.value := place];
    }

    /** `dataRepository.save(blob)` for a blob that has an id. */
    method SaveBlob(blob: DataBlob)
      requires Valid() && blob.id.Some?
      modifies this`blobs
      ensures Valid()
      ensures blobs == old(blobs)[blob.id.value := blob]
    {
      blobs := blobs[blob.id.value := blob];
    }

    /** `shiftArchiveRepository.save(shift)` then `shiftRepository.delete(shift)`. */
    method ArchiveShift(k: Uuid)
      requires Valid() && k in shifts
      modifies this`shifts, this`shiftArchive
      ensures Valid()
      ensures shiftArchive == old(shiftArchive)[k := old(shifts)[k]]
      ensures shifts == old(shifts) - {k}
    {
      shiftArchive := shiftArchive[k := shifts[k]];
      shifts := shifts - {k};
    }

    /** `tripArchiveRepository.save(trip)` then `tripRepository.delete(trip)`. */
    method ArchiveTrip(k: Uuid)
      requires Valid() && k in trips
      modifies this`trips, this`tripArchive
      ensures Valid()
      ensures tripArchive == old(tripArchive)[k := old(trips)[k]]
      ensures trips == old(trips) - {k}
    {
      tripArchive := tripArchive[k := trips[k]];
      trips := trips - {k};
    }

    method DeleteBlob(id: Uuid)
      requires Valid()
      modifies this`blobs
      ensures Valid()
      ensures blobs == old(blobs) - {id}
    {
      blobs := blobs - {id};
    }

    /** `partnerTransportationRequestRepository.save(request)` for a request that has an id. */
    method SavePartnerRequest(request: PartnerTransportationRequest)
      requires Valid() && request.id.Some?
      modifies this`partnerRequests
      ensures Valid()
      ensures partnerRequests == old(partnerRequests)[request.id.value := request]
    {
      partnerRequests := partnerRequests[request.id.value := request];
    }
  }
}

// AdminUtils.archiveShiftsAndTrips: shifts that have ended and trips
// whose primary time has passed, as of a given time, move from the live
// repositories to the archive ones.
module AdminUtils {
  import opened Common
  import opened Model
  import opened TripRules
  import opened Store

  /** A shift is due once `time` has reached its end; a shift without an end ends now. */
  function ShiftDue(time: int, now: int): Shift -> bool
  {
    (s: Shift) => time >= GetOrDefault(s.endTime, now)
  }

  /** A trip is due once `time` has reached its primary time. */
  function TripDue(time: int): TripRequest -> bool
  {
    (t: TripRequest) => time >= PrimaryTime(t)
  }

  /** The entries the filter leaves in place. */
  function Kept<T>(m: map<Uuid, T>, due: T -> bool): (r: map<Uuid, T>)
    ensures forall k :: k in r <==> k in m && !due(m[k])
    ensures forall k :: k in r ==> r[k] == m[k]
  {
    map k | k in m && !due(m[k]) :: m[k]
  }

  /** The entries the filter moves. */
  function Moved<T>(m: map<Uuid, T>, due: T -> bool): (r: map<Uuid, T>)
    ensures forall k :: k in r <==> k in m && due(m[k])
    ensures forall k :: k in r ==> r[k] == m[k]
  {
    map k | k in m && due(m[k]) :: m[k]
  }

  /** Every entry is either kept or moved, never both, and none is lost or altered. */
  lemma KeptMovedPartition<T>(m: map<Uuid, T>, due: T -> bool)
    ensures Kept(m, due).Keys !! Moved(m, due).Keys
    ensures Kept(m, due) + Moved(m, due) == m
    ensures |Kept(m, due)| + |Moved(m, due)| == |m|
  {
    var kept, moved := Kept(m, due), Moved(m, due);
    assert kept.Keys + moved.Keys == m.Keys;
    assert |kept.Keys + moved.Keys| == |kept.Keys| + |moved.Keys|;
  }

  // The state part-way through a pass over the live keys, `pending` being
  // the keys not yet visited.

  ghost function Remaining<T>(live: map<Uuid, T>, due: T -> bool, pending: set<Uuid>): map<Uuid, T>
  {
    map k | k in live && (k in pending || !due(live[k])) :: live[k]
  }

  ghost function Done<T>(live: map<Uuid, T>, due: T -> bool, pending: set<Uuid>): map<Uuid, T>
  {
    map k | k in live && k !in pending && due(live[k]) :: live[k]
  }

  /** Visiting one more key moves it exactly when it is due. */
  lemma VisitStep<T>(live: map<Uuid, T>, archive: map<Uuid, T>, due: T -> bool, pending: set<Uuid>, k: Uuid)
    requires k in pending && k in live
    ensures due(live[k]) ==> Remaining(live, due, pending - {k}) == Remaining(live, due, pending) - {k}
    ensures !due(live[k]) ==> Remaining(live, due, pending - {k}) == Remaining(live, due, pending)
    ensures due(live[k]) ==> archive + Done(live, due, pending - {k}) ==
                             (archive + Done(live, due, pending))[k := live[k]]
    ensures !due(live[k]) ==> Done(live, due, pending - {k}) == Done(live, due, pending)
  {
    if due(live[k]) {
      assert Done(live, due, pending - {k}) == Done(live, due, pending)[k := live[k]];
    }
  }

  /** Before the pass nothing has moved; after it, the kept and moved entries. */
  lemma PassEnds<T>(live: map<Uuid, T>, archive: map<Uuid, T>, due: T -> bool)
    ensures Remaining(live, due, live.Keys) == live
    ensures Done(live, due, live.Keys) == map[]
    ensures Remaining(live, due, {}) == Kept(live, due)
    ensures Done(live, due, {}) == Moved(live, due)
  {
  }

  method ArchiveShifts(db: Repositories, time: int, now: int)
    requires db.Valid()
    modifies db`shifts, db`shiftArchive
    ensures db.Valid()
    ensures db.shifts == Kept(old(db.shifts), ShiftDue(time, now))
    ensures db.shiftArchive == old(db.shiftArchive) + Moved(old(db.shifts), ShiftDue(time, now))
  {
    ghost var live, archive := db.shifts, db.shiftArchive;
    var due := ShiftDue(time, now);
    var pending := db.shifts.Keys;
    PassEnds(live, archive, due);
    while pending != {}
      invariant pending <= live.Keys
      invariant db.Valid()
      invariant db.shifts == Remaining(live, due, pending)
      invariant db.shiftArchive == archive + Done(live, due, pending)
      decreases pending
    {
      var k :| k in pending;
      var shift := db.shifts[k];
      VisitStep(live, archive, due, pending, k);
      if due(shift) {
        db.ArchiveShift(k);
      }
      pending := pending - {k};
    }
  }

  method ArchiveTrips(db: Repositories, time: int)
    requires db.Valid()
    modifies db`trips, db`tripArchive
    ensures db.Valid()
    ensures db.trips == Kept(old(db.trips), TripDue(time))
    ensures db.tripArchive == old(db.tripArchive) + Moved(old(db.trips), TripDue(time))
  {
    ghost var live, archive := db.trips, db.tripArchive;
    var due := TripDue(time);
    var pending := db.trips.Keys;
    PassEnds(live, archive, due);
    while pending != {}
      invariant pending <= live.Keys
      invariant db.Valid()
      invariant db.trips == Remaining(live, due, pending)
      invariant db.tripArchive == archive + Done(live, due, pending)
      decreases pending
    {
      var k :| k in pending;
      var trip := db.trips[k];
      VisitStep(live, archive, due, pending, k);
      if due(trip) {
        db.ArchiveTrip(k);
      }
      pending := pending - {k};
    }
  }

  /**
   * archiveShiftsAndTrips: each due shift is saved to the shift archive
   * and deleted from the live shifts, then each due trip likewise.
   */
  method ArchiveShiftsAndTrips(db: Repositories, time: int, now: int)
    requires db.Valid()
    modifies db`shifts, db`shiftArchive, db`trips, db`tripArchive
    ensures db.Valid()
    ensures db.shifts == Kept(old(db.shifts), ShiftDue(time, now))
    ensures db.shiftArchive == old(db.shiftArchive) + Moved(old(db.shifts), ShiftDue(time, now))
    ensures db.trips == Kept(old(db.trips), TripDue(time))
    ensures db.tripArchive == old(db.tripArchive) + Moved(old(db.trips), TripDue(time))
  {
    ArchiveShifts(db, time, now);
    ArchiveTrips(db, time);
  }

  /** Archiving the same moment twice moves nothing the second time. */
  lemma ArchiveIdempotent<T>(m: map<Uuid, T>, due: T -> bool)
    ensures Kept(Kept(m, due), due) == Kept(m, due)
    ensures Moved(Kept(m, due), due) == map[]
  {
    assert Moved(Kept(m, due), due).Keys == {};
  }

  /** A later archiving time moves at least what an earlier one did. */
  lemma ArchiveMonotone(shifts: map<Uuid, Shift>, trips: map<Uuid, TripRequest>, t1: int, t2: int, now: int)
    requires t1 <= t2
    ensures Moved(shifts, ShiftDue(t1, now)).Keys <= Moved(shifts, ShiftDue(t2, now)).Keys
    ensures Moved(trips, TripDue(t1)).Keys <= Moved(trips, TripDue(t2)).Keys
  {
  }
}

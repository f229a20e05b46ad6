// ShiftApiImpl: the shift endpoints. Every endpoint that loads, changes
// and saves a shift is one atomic method on the repositories; the
// date-overlap queries and the driver's time zone are functions of the
// repository answers they read.
module ShiftApi {
  import opened Common
  import opened Model
  import opened Timeline
  import opened Dates
  import opened Store

  // ---------------------------------------------------------------------
  // createShift

  /** A SHIFT_START or SHIFT_END marker: only its id and its action are set. */
  function MarkerEvent(id: Uuid, action: EventAction): (e: Event)
  {
    BlankEvent.(id := Some(id), action := Some(action))
  }

  /**
   * The shift createShift saves: a fresh id, `created` = now, and
   * SHIFT_START then SHIFT_END appended to the events that came in
   * (`addEventsItem` starts a new list when there is none).
   */
  function Created(shift: Shift, id: Uuid, now: int, startId: Uuid, endId: Uuid): (r: Shift)
  {
    shift.(id := Some(id), created := Some(now),
           events := Some(GetOrDefault(shift.events, []) + [MarkerEvent(startId, ShiftStart), MarkerEvent(endId, ShiftEnd)]))
  }

  /** The incoming events are kept, in front of the two markers: start, then end. */
  lemma CreatedAppendsMarkers(shift: Shift, id: Uuid, now: int, startId: Uuid, endId: Uuid)
    ensures var before := GetOrDefault(shift.events, []);
            var after := Created(shift, id, now, startId, endId).events.value;
            |after| == |before| + 2 && after[..|before|] == before &&
            IsStart(after[|before|]) && IsEnd(after[|before| + 1])
  {
  }

  /**
   * A shift created without events has exactly two, start first and end
   * last, already in timeline order with distinct keys, so no later sort
   * moves them.
   */
  lemma NewShiftTimeline(shift: Shift, id: Uuid, now: int, startId: Uuid, endId: Uuid)
    requires GetOrDefault(shift.events, []) == []
    ensures var after := Created(shift, id, now, startId, endId).events.value;
            |after| == 2 && InTimelineOrder(after) && UniqueKeys(after) &&
            SortTimeline(after) == after &&
            Keys(after) == {EventKey(None, Some(ShiftStart)), EventKey(None, Some(ShiftEnd))}
  {
    var after := Created(shift, id, now, startId, endId).events.value;
    var s, e := MarkerEvent(startId, ShiftStart), MarkerEvent(endId, ShiftEnd);
    assert after == [s, e];
    MarkersInOrder(s, e);
    SortByIdentity(after, EventLeq);
    PairKeys(s, e);
  }

  lemma MarkersInOrder(s: Event, e: Event)
    requires IsStart(s) && IsEnd(e)
    ensures InTimelineOrder([s, e]) && UniqueKeys([s, e])
  {
    assert EventLeq(s, e);
  }

  lemma PairKeys(s: Event, e: Event)
    ensures Keys([s, e]) == {KeyOfEvent(s), KeyOfEvent(e)}
  {
    forall k | k in Keys([s, e]) ensures k == KeyOfEvent(s) || k == KeyOfEvent(e) {
      var x :| x in [s, e] && KeyOfEvent(x) == k;
    }
    assert s in [s, e] && e in [s, e];
  }

  /** createShift: the record is saved under its fresh id and returned. */
  method CreateShift(db: Repositories, shift: Shift, id: Uuid, now: int, startId: Uuid, endId: Uuid) returns (r: Shift)
    requires db.Valid()
    modifies db`shifts
    ensures db.Valid()
    ensures r == Created(shift, id, now, startId, endId)
    ensures db.shifts == old(db.shifts)[id := r]
  {
    var events := GetOrDefault(shift.events, []);
    events := events + [MarkerEvent(startId, ShiftStart)];
    events := events + [MarkerEvent(endId, ShiftEnd)];
    assert events == GetOrDefault(shift.events, []) + [MarkerEvent(startId, ShiftStart), MarkerEvent(endId, ShiftEnd)];
    r := shift.(id := Some(id), created := Some(now), events := Some(events));
    db.shifts := db.shifts[id := r];
  }

  // ---------------------------------------------------------------------
  // addEvent and updateEvent: both are addOrUpdateEvent with no anchor

  const ShiftNotFound := NotFound("Shift not found")

  /**
   * addEvent / updateEvent: the upsert of Timeline.Added on the stored
   * shift, saved and returned; an unknown shift is "Shift not found".
   */
  method AddEvent(db: Repositories, shiftId: Uuid, event: Event, freshId: Uuid) returns (r: Result<Shift>)
    requires db.Valid()
    modifies db`shifts
    ensures db.Valid()
    ensures shiftId !in old(db.shifts) ==> r == Err(ShiftNotFound) && db.shifts == old(db.shifts)
    ensures shiftId in old(db.shifts) ==>
              r == Ok(Added(old(db.shifts)[shiftId], event, freshId)) &&
              db.shifts == old(db.shifts)[shiftId := r.value]
  {
    if shiftId !in db.shifts {
      return Err(ShiftNotFound);
    }
    var shift := db.shifts[shiftId];
    r := AddOrUpdateEvent(shift, event, None, freshId);
    db.shifts := db.shifts[shiftId := r.value];
  }

  // ---------------------------------------------------------------------
  // moveEvent

  /**
   * `stream().filter(e -> e.getId().equals(id)).findFirst()`: the first
   * index whose id is `id`; the filter dereferences each id it reaches,
   * so a null id met before the match throws.
   */
  function SearchById(s: seq<Event>, id: Uuid): (r: Result<Option<nat>>)
    ensures r.Ok? && r.value.Some? ==> r.value.value < |s| && s[r.value.value].id == Some(id)
    decreases |s|
  {
    if s == [] then Ok(None)
    else if s[0].id.None? then Err(NullPointer)
    else if s[0].id == Some(id) then Ok(Some(0))
    else match SearchById(s[1..], id)
         case Ok(Some(i)) => Ok(Some(i + 1))
         case other => other
  }

  /**
   * The dereferencing search agrees with the null-safe one whenever it
   * returns, and it fails exactly when a null id comes before the first
   * match; with every id set it never fails.
   */
  lemma {:induction false} SearchByIdCorrect(s: seq<Event>, id: Uuid)
    ensures SearchById(s, id).Ok? ==> SearchById(s, id).value == FirstWithId(s, id)
    ensures SearchById(s, id).Err? ==> SearchById(s, id).error == NullPointer
    ensures SearchById(s, id).Err? <==>
            exists j :: 0 <= j < |s| && s[j].id.None? && (forall k :: 0 <= k < j ==> s[k].id != Some(id))
    decreases |s|
  {
    if s != [] {
      SearchByIdCorrect(s[1..], id);
      if s[0].id.None? {
        assert 0 < |s| && s[0].id.None?;
      } else if s[0].id == Some(id) {
        forall j | 0 <= j < |s| && s[j].id.None? ensures exists k :: 0 <= k < j && s[k].id == Some(id) {
          assert s[0].id == Some(id);
        }
      } else {
        if SearchById(s[1..], id).Err? {
          var j :| 0 <= j < |s[1..]| && s[1..][j].id.None? && (forall k :: 0 <= k < j ==> s[1..][k].id != Some(id));
          assert s[j + 1].id.None?;
          forall k | 0 <= k < j + 1 ensures s[k].id != Some(id) {
            if k > 0 {
              assert s[k] == s[1..][k - 1];
            }
          }
        } else {
          forall j | 0 <= j < |s| && s[j].id.None? ensures exists k :: 0 <= k < j && s[k].id == Some(id) {
            assert j > 0;
            assert s[1..][j - 1].id.None?;
            var k :| 0 <= k < j - 1 && s[1..][k].id == Some(id);
            assert s[k + 1].id == Some(id);
          }
        }
      }
    }
  }

  /** Every event of the list carries an id. */
  predicate AllIdentified(s: seq<Event>)
  {
    forall j :: 0 <= j < |s| ==> s[j].id.Some?
  }

  /** Without null ids the dereferencing search is the null-safe one. */
  lemma SearchIdentified(s: seq<Event>, id: Uuid)
    requires AllIdentified(s)
    ensures SearchById(s, id) == Ok(FirstWithId(s, id))
  {
    SearchByIdCorrect(s, id);
  }

  /**
   * moveEvent, in the order the source checks: the same id for event and
   * anchor is a bad request before any lookup; then the shift, the
   * anchor and the event are looked up; on success the event found is
   * upserted with the anchor set and saved.
   */
  function Moved(shifts: map<Uuid, Shift>, shiftId: Uuid, eventId: Uuid, anchorId: Uuid): (r: Result<Shift>)
  {
    if anchorId == eventId then Err(BadRequest)
    else if shiftId !in shifts then Err(ShiftNotFound)
    else MovedWithin(shifts[shiftId], eventId, anchorId)
  }

  /** moveEvent on the loaded shift: the anchor search, the event search, then the anchored upsert. */
  function MovedWithin(shift: Shift, eventId: Uuid, anchorId: Uuid): (r: Result<Shift>)
  {
    var events := GetOrDefault(shift.events, []);
    var anchorAt :- SearchById(events, anchorId);
    if anchorAt.None? then Err(NotFound("Anchor event not found"))
    else
      var eventAt :- SearchById(events, eventId);
      if eventAt.None? then Err(NotFound("Event not found"))
      else Upserted(shift, events[eventAt.value], Some(anchorId), eventId)
  }

  /** The error answers of moveEvent and the order in which they take precedence. */
  lemma MovedErrors(shifts: map<Uuid, Shift>, shiftId: Uuid, eventId: Uuid, anchorId: Uuid)
    ensures anchorId == eventId ==> Moved(shifts, shiftId, eventId, anchorId) == Err(BadRequest)
    ensures anchorId != eventId && shiftId !in shifts ==> Moved(shifts, shiftId, eventId, anchorId) == Err(ShiftNotFound)
    ensures anchorId != eventId && shiftId in shifts ==>
              var events := GetOrDefault(shifts[shiftId].events, []);
              AllIdentified(events) ==>
                (FirstWithId(events, anchorId).None? ==>
                   Moved(shifts, shiftId, eventId, anchorId) == Err(NotFound("Anchor event not found"))) &&
                (FirstWithId(events, anchorId).Some? && FirstWithId(events, eventId).None? ==>
                   Moved(shifts, shiftId, eventId, anchorId) == Err(NotFound("Event not found")))
  {
    if anchorId != eventId && shiftId in shifts {
      var events := GetOrDefault(shifts[shiftId].events, []);
      if AllIdentified(events) {
        SearchIdentified(events, anchorId);
        SearchIdentified(events, eventId);
      }
    }
  }

  /**
   * A move of a present event after a present anchor, with every id set
   * and keys unique: it fails with IndexOutOfBounds exactly when the
   * anchor is the last event; otherwise the count is unchanged, the
   * timeline is sorted with unique keys, and the event, stamped 1000 ns
   * after a timed anchor, takes the place of its old copy.
   */
  lemma MovedEvent(shifts: map<Uuid, Shift>, shiftId: Uuid, eventId: Uuid, anchorId: Uuid)
    requires anchorId != eventId && shiftId in shifts
    requires var events := GetOrDefault(shifts[shiftId].events, []);
             UniqueKeys(events) && AllIdentified(events) &&
             FirstWithId(events, anchorId).Some? && FirstWithId(events, eventId).Some?
    ensures var events := GetOrDefault(shifts[shiftId].events, []);
            var p := FirstWithId(events, anchorId).value;
            var q := FirstWithId(events, eventId).value;
            var r := Moved(shifts, shiftId, eventId, anchorId);
            (r.Err? <==> p == |events| - 1) && (r.Err? ==> r.error == IndexOutOfBounds) &&
            (r.Ok? ==>
               var after := r.value.events.value;
               r.value == shifts[shiftId].(events := Some(after)) &&
               |after| == |events| && InTimelineOrder(after) && UniqueKeys(after) &&
               multiset(after) == multiset(WithoutKey(events, KeyOfEvent(events[q]))) + multiset{Stamped(events[q], events[p])})
  {
    var events := GetOrDefault(shifts[shiftId].events, []);
    var p := FirstWithId(events, anchorId).value;
    var q := FirstWithId(events, eventId).value;
    SearchIdentified(events, anchorId);
    SearchIdentified(events, eventId);
    var e := events[q];
    assert WithId(e, eventId) == e;
    assert FirstWithKey(events, KeyOfEvent(e)).Some? by {
      KeysAndFirst(events, KeyOfEvent(e));
      assert e in events;
    }
    assert Moved(shifts, shiftId, eventId, anchorId) == Upserted(shifts[shiftId], e, Some(anchorId), eventId);
    AddOrUpdateAnchorFailure(events, e, anchorId, eventId, p);
    AddOrUpdateAnchorSuccess(events, e, anchorId, eventId, p);
  }

  /** The stream search of moveEvent, one event at a time. */
  method FindEventById(events: seq<Event>, id: Uuid) returns (r: Result<Option<nat>>)
    ensures r == SearchById(events, id)
  {
    var i := 0;
    while i < |events|
      invariant 0 <= i <= |events|
      invariant forall j :: 0 <= j < i ==> events[j].id.Some? && events[j].id != Some(id)
      invariant SearchById(events, id) == ShiftSearch(SearchById(events[i..], id), i)
    {
      assert events[i..][1..] == events[i + 1..];
      if events[i].id.None? {
        return Err(NullPointer);
      }
      if events[i].id == Some(id) {
        return Ok(Some(i));
      }
      i := i + 1;
    }
    r := Ok(None);
  }

  /** A search result on the suffix from index i, read as an index into the whole list. */
  function ShiftSearch(r: Result<Option<nat>>, i: nat): (t: Result<Option<nat>>)
    ensures r.Err? ==> t == r
    ensures r == Ok(None) ==> t == r
  {
    if r.Ok? && r.value.Some? then Ok(Some(r.value.value + i)) else r
  }

  /** moveEvent: the shift is saved only when the move succeeds. */
  method MoveEvent(db: Repositories, shiftId: Uuid, eventId: Uuid, anchorId: Uuid) returns (r: Result<Shift>)
    requires db.Valid()
    modifies db`shifts
    ensures db.Valid()
    ensures r == Moved(old(db.shifts), shiftId, eventId, anchorId)
    ensures db.shifts == if r.Ok? then old(db.shifts)[shiftId := r.value] else old(db.shifts)
  {
    if anchorId == eventId {
      return Err(BadRequest);
    }
    if shiftId !in db.shifts {
      return Err(ShiftNotFound);
    }
    r := MoveWithin(db.shifts[shiftId], eventId, anchorId);
    if r.Ok? {
      db.shifts := db.shifts[shiftId := r.value];
    }
  }

  /** The searches and the anchored upsert of moveEvent on the loaded shift. */
  method MoveWithin(shift: Shift, eventId: Uuid, anchorId: Uuid) returns (r: Result<Shift>)
    ensures r == MovedWithin(shift, eventId, anchorId)
    ensures r.Ok? ==> r.value == shift.(events := r.value.events)
  {
    var events := GetOrDefault(shift.events, []);
    var anchorAt := FindEventById(events, anchorId);
    if anchorAt.Err? {
      return Err(anchorAt.error);
    }
    if anchorAt.value.None? {
      return Err(NotFound("Anchor event not found"));
    }
    var eventAt := FindEventById(events, eventId);
    if eventAt.Err? {
      return Err(eventAt.error);
    }
    if eventAt.value.None? {
      return Err(NotFound("Event not found"));
    }
    r := AddOrUpdateEvent(shift, events[eventAt.value.value], Some(anchorId), eventId);
  }

  // ---------------------------------------------------------------------
  // removeEvent

  /** The events removeEvent keeps: those whose id is not `eventId` (an unset id is kept). */
  function NotWithId(eventId: Uuid): Event -> bool
  {
    (e: Event) => e.id != Some(eventId)
  }

  /** removeEvent on the loaded shift: a null events list is dereferenced and throws. */
  function RemovedEvent(shift: Shift, eventId: Uuid): (r: Result<Shift>)
  {
    if shift.events.None? then Err(NullPointer)
    else Ok(shift.(events := Some(Filter(shift.events.value, NotWithId(eventId)))))
  }

  /**
   * removeEvent drops every event with that id and keeps the others in
   * their order (a sorted timeline stays sorted, nothing is re-sorted);
   * an id no event has leaves the timeline as it was.
   */
  lemma RemovedEventProperties(shift: Shift, eventId: Uuid)
    ensures RemovedEvent(shift, eventId).Ok? <==> shift.events.Some?
    ensures RemovedEvent(shift, eventId).Ok? ==>
              var before := shift.events.value;
              var r := RemovedEvent(shift, eventId).value;
              r == shift.(events := r.events) && r.events.Some? &&
              (forall e :: e in r.events.value <==> e in before && e.id != Some(eventId)) &&
              (InTimelineOrder(before) ==> InTimelineOrder(r.events.value)) &&
              ((forall e :: e in before ==> e.id != Some(eventId)) ==> r.events.value == before)
  {
    if shift.events.Some? {
      var before := shift.events.value;
      FilterMembers(before, NotWithId(eventId));
      if InTimelineOrder(before) {
        FilterSorted(before, NotWithId(eventId), EventLeq);
      }
      if forall e :: e in before ==> e.id != Some(eventId) {
        FilterAll(before, NotWithId(eventId));
      }
    }
  }

  /** The markers are not protected: removing the start marker's id from a new shift leaves only the end marker. */
  lemma RemoveStartMarker(shift: Shift, id: Uuid, now: int, startId: Uuid, endId: Uuid)
    requires shift.events == None && startId != endId
    ensures RemovedEvent(Created(shift, id, now, startId, endId), startId) ==
            Ok(Created(shift, id, now, startId, endId).(events := Some([MarkerEvent(endId, ShiftEnd)])))
  {
    var evs := Created(shift, id, now, startId, endId).events.value;
    assert evs == [MarkerEvent(startId, ShiftStart), MarkerEvent(endId, ShiftEnd)];
    var p := NotWithId(startId);
    assert !p(evs[0]) && p(evs[1]);
    assert evs[1..] == [MarkerEvent(endId, ShiftEnd)];
    assert evs[1..][1..] == [];
    assert Filter(evs[1..], p) == [MarkerEvent(endId, ShiftEnd)] + Filter(evs[1..][1..], p);
    assert Filter(evs, p) == Filter(evs[1..], p);
    assert Filter(evs[1..][1..], p) == [];
    assert Filter(evs, p) == [MarkerEvent(endId, ShiftEnd)];
  }

  /** removeEvent: the filtered timeline is saved; an unknown shift is "Shift not found". */
  method RemoveEvent(db: Repositories, shiftId: Uuid, eventId: Uuid) returns (r: Result<Shift>)
    requires db.Valid()
    modifies db`shifts
    ensures db.Valid()
    ensures shiftId !in old(db.shifts) ==> r == Err(ShiftNotFound)
    ensures shiftId in old(db.shifts) ==> r == RemovedEvent(old(db.shifts)[shiftId], eventId)
    ensures db.shifts == if r.Ok? then old(db.shifts)[shiftId := r.value] else old(db.shifts)
  {
    if shiftId !in db.shifts {
      return Err(ShiftNotFound);
    }
    var shift := db.shifts[shiftId];
    if shift.events.None? {
      return Err(NullPointer);
    }
    var kept := [];
    var i := 0;
    while i < |shift.events.value|
      invariant 0 <= i <= |shift.events.value|
      invariant kept + Filter(shift.events.value[i..], NotWithId(eventId)) == Filter(shift.events.value, NotWithId(eventId))
    {
      var e := shift.events.value[i];
      assert shift.events.value[i..][0] == e && shift.events.value[i..][1..] == shift.events.value[i + 1..];
      assert NotWithId(eventId)(e) == (e.id != Some(eventId));
      if e.id != Some(eventId) {
        kept := kept + [e];
      }
      i := i + 1;
    }
    assert shift.events.value[i..] == [];
    assert kept == Filter(shift.events.value, NotWithId(eventId));
    r := Ok(shift.(events := Some(kept)));
    assert r == RemovedEvent(shift, eventId);
    db.shifts := db.shifts[shiftId := r.value];
  }

  // ---------------------------------------------------------------------
  // deleteShift

  /** A shift may be deleted only while no trip is assigned to it (a null list counts as empty). */
  predicate Deletable(shift: Shift)
  {
    GetOrDefault(shift.trips, []) == []
  }

  /**
   * deleteShift: an unknown shift is a silent no-op (204), a shift with
   * trips throws IllegalStateException and stays, any other is deleted.
   */
  method DeleteShift(db: Repositories, shiftId: Uuid) returns (r: Result<()>)
    requires db.Valid()
    modifies db`shifts
    ensures db.Valid()
    ensures r.Err? <==> shiftId in old(db.shifts) && !Deletable(old(db.shifts)[shiftId])
    ensures r.Err? ==> r.error == IllegalState && db.shifts == old(db.shifts)
    ensures r.Ok? ==> db.shifts == old(db.shifts) - {shiftId}
  {
    if shiftId in db.shifts {
      if !Deletable(db.shifts[shiftId]) {
        return Err(IllegalState);
      }
      db.shifts := db.shifts - {shiftId};
    }
    r := Ok(());
  }

  // ---------------------------------------------------------------------
  // Which fields of a shift an operation touches

  datatype ShiftField =
    | IdField | ZoneField | DriverField | StartTimeField | StartBufferField | EndTimeField
    | EndBufferField | CreatedField | CreatedByField | TripsField | EventsField | ActiveField

  /** The two shifts agree on field f. */
  predicate SameField(a: Shift, b: Shift, f: ShiftField)
  {
    match f
    case IdField => a.id == b.id
    case ZoneField => a.zoneId == b.zoneId
    case DriverField => a.driverId == b.driverId
    case StartTimeField => a.startTime == b.startTime
    case StartBufferField => a.startBuffer == b.startBuffer
    case EndTimeField => a.endTime == b.endTime
    case EndBufferField => a.endBuffer == b.endBuffer
    case CreatedField => a.created == b.created
    case CreatedByField => a.createdBy == b.createdBy
    case TripsField => a.trips == b.trips
    case EventsField => a.events == b.events
    case ActiveField => a.active == b.active
  }

  /** Field f of the shift is set (non-null). */
  predicate FieldSet(s: Shift, f: ShiftField)
  {
    match f
    case IdField => s.id.Some?
    case ZoneField => s.zoneId.Some?
    case DriverField => s.driverId.Some?
    case StartTimeField => s.startTime.Some?
    case StartBufferField => s.startBuffer.Some?
    case EndTimeField => s.endTime.Some?
    case EndBufferField => s.endBuffer.Some?
    case CreatedField => s.created.Some?
    case CreatedByField => s.createdBy.Some?
    case TripsField => s.trips.Some?
    case EventsField => s.events.Some?
    case ActiveField => s.active.Some?
  }

  /** Shifts that agree on every field are equal. */
  lemma AllFieldsSame(a: Shift, b: Shift)
    requires forall f :: SameField(a, b, f)
    ensures a == b
  {
    assert SameField(a, b, IdField) && SameField(a, b, ZoneField) && SameField(a, b, DriverField);
    assert SameField(a, b, StartTimeField) && SameField(a, b, StartBufferField) && SameField(a, b, EndTimeField);
    assert SameField(a, b, EndBufferField) && SameField(a, b, CreatedField) && SameField(a, b, CreatedByField);
    assert SameField(a, b, TripsField) && SameField(a, b, EventsField) && SameField(a, b, ActiveField);
  }

  // ---------------------------------------------------------------------
  // The single-field setters

  /** assignDriver, removeDriver, setStartTime, setEndTime and setShiftActive. */
  datatype ShiftSetting =
    | AssignDriver(driver: Uuid)
    | RemoveDriver
    | SetStartTime(start: int)
    | SetEndTime(end: int)
    | SetActive(active: Option<bool>)

  function FieldOf(setting: ShiftSetting): ShiftField
  {
    match setting
    case AssignDriver(_) => DriverField
    case RemoveDriver => DriverField
    case SetStartTime(_) => StartTimeField
    case SetEndTime(_) => EndTimeField
    case SetActive(_) => ActiveField
  }

  /** The fluent setter on the loaded shift. */
  function Applied(shift: Shift, setting: ShiftSetting): (r: Shift)
  {
    match setting
    case AssignDriver(d) => shift.(driverId := Some(d))
    case RemoveDriver => shift.(driverId := None)
    case SetStartTime(t) => shift.(startTime := Some(t))
    case SetEndTime(t) => shift.(endTime := Some(t))
    case SetActive(a) => shift.(active := a)
  }

  /** What a setter leaves set; its own value only. */
  predicate Holds(shift: Shift, setting: ShiftSetting)
  {
    match setting
    case AssignDriver(d) => shift.driverId == Some(d)
    case RemoveDriver => shift.driverId.None?
    case SetStartTime(t) => shift.startTime == Some(t)
    case SetEndTime(t) => shift.endTime == Some(t)
    case SetActive(a) => shift.active == a
  }

  /**
   * Each setter changes its one field and nothing else (in particular not
   * the events, so the markers keep their times), establishes its value,
   * and applying it again changes nothing.
   */
  lemma AppliedChangesOneField(shift: Shift, setting: ShiftSetting)
    ensures forall f :: f != FieldOf(setting) ==> SameField(shift, Applied(shift, setting), f)
    ensures Holds(Applied(shift, setting), setting)
    ensures Holds(shift, setting) ==> Applied(shift, setting) == shift
    ensures Applied(Applied(shift, setting), setting) == Applied(shift, setting)
  {
  }

  /** The five setters: an unknown shift is "Shift not found", otherwise the changed shift is saved and returned. */
  method SetShiftField(db: Repositories, shiftId: Uuid, setting: ShiftSetting) returns (r: Result<Shift>)
    requires db.Valid()
    modifies db`shifts
    ensures db.Valid()
    ensures shiftId !in old(db.shifts) ==> r == Err(ShiftNotFound) && db.shifts == old(db.shifts)
    ensures shiftId in old(db.shifts) ==>
              r == Ok(Applied(old(db.shifts)[shiftId], setting)) &&
              db.shifts == old(db.shifts)[shiftId := r.value]
  {
    if shiftId !in db.shifts {
      return Err(ShiftNotFound);
    }
    var shift := Applied(db.shifts[shiftId], setting);
    db.shifts := db.shifts[shiftId := shift];
    r := Ok(shift);
  }

  // ---------------------------------------------------------------------
  // updateShift

  /** The setter chain of updateShift: each non-null field but the id is copied; a events list replaces the timeline as it is. */
  function MergeShift(existing: Shift, shift: Shift): (m: Shift)
  {
    existing.(
      zoneId := if shift.zoneId.Some? then shift.zoneId else existing.zoneId,
      driverId := if shift.driverId.Some? then shift.driverId else existing.driverId,
      startTime := if shift.startTime.Some? then shift.startTime else existing.startTime,
      startBuffer := if shift.startBuffer.Some? then shift.startBuffer else existing.startBuffer,
      endTime := if shift.endTime.Some? then shift.endTime else existing.endTime,
      endBuffer := if shift.endBuffer.Some? then shift.endBuffer else existing.endBuffer,
      created := if shift.created.Some? then shift.created else existing.created,
      createdBy := if shift.createdBy.Some? then shift.createdBy else existing.createdBy,
      trips := if shift.trips.Some? then shift.trips else existing.trips,
      events := if shift.events.Some? then shift.events else existing.events,
      active := if shift.active.Some? then shift.active else existing.active)
  }

  /**
   * The merge changes only fields the update sets, never the id, and
   * every such field ends up as the update gives it; merging the same
   * update twice is merging it once.
   */
  lemma MergeShiftFields(existing: Shift, shift: Shift)
    ensures forall f :: f == IdField || !FieldSet(shift, f) ==> SameField(MergeShift(existing, shift), existing, f)
    ensures forall f :: f != IdField && FieldSet(shift, f) ==> SameField(MergeShift(existing, shift), shift, f)
    ensures MergeShift(MergeShift(existing, shift), shift) == MergeShift(existing, shift)
  {
  }

  /** updateShift: `findById(null)` throws IllegalArgumentException; an unknown id is "Shift not found". */
  method UpdateShift(db: Repositories, shift: Shift) returns (r: Result<Shift>)
    requires db.Valid()
    modifies db`shifts
    ensures db.Valid()
    ensures shift.id.None? ==> r == Err(IllegalArgument)
    ensures shift.id.Some? && shift.id.value !in old(db.shifts) ==> r == Err(ShiftNotFound)
    ensures shift.id.Some? && shift.id.value in old(db.shifts) ==>
              r == Ok(MergeShift(old(db.shifts)[shift.id.value], shift))
    ensures db.shifts == if r.Ok? then old(db.shifts)[shift.id.value := r.value] else old(db.shifts)
  {
    if shift.id.None? {
      return Err(IllegalArgument);
    }
    var id := shift.id.value;
    if id !in db.shifts {
      return Err(ShiftNotFound);
    }
    var merged := MergeShift(db.shifts[id], shift);
    db.shifts := db.shifts[id := merged];
    r := Ok(merged);
  }

  // ---------------------------------------------------------------------
  // The driver's time zone

  /** ZoneOffset.ofHours: offsets beyond 18 hours either way are refused. */
  function OffsetOfHours(h: int): (r: Result<int>)
    ensures r.Ok? <==> -18 <= h <= 18
    ensures r.Ok? ==> r.value == h
  {
    if -18 <= h <= 18 then Ok(h) else Err(DateTime)
  }

  /** The offset of a driver's home zone: UTC when any link of driver, home zone, zone or its offset is missing. */
  function HomeZoneOffset(driver: Option<Driver>, zones: map<Uuid, Zone>): (r: Result<int>)
    ensures r.Ok? ==> -18 <= r.value <= 18
  {
    if driver.None? || driver.value.homeZone.None? || driver.value.homeZone.value !in zones then Ok(0)
    else match zones[driver.value.homeZone.value].timeZone
         case None => Ok(0)
         case Some(h) => OffsetOfHours(h)
  }

  /**
   * getTimeZoneForDriver as written: `Optional.of(Optional.ofNullable(byUser))`
   * is never empty, so `.orElse(findById(driverId))` never takes effect and
   * a driver found only by its own id is ignored.
   */
  function TimeZoneForDriverAsWritten(driverId: Option<Uuid>, byUser: Option<Driver>, byId: Option<Driver>,
                                      zones: map<Uuid, Zone>): (r: Result<int>)
    ensures r.Ok? ==> -18 <= r.value <= 18
  {
    if driverId.None? then Ok(0) else HomeZoneOffset(byUser, zones)
  }

  /** getTimeZoneForDriver as intended: the driver by user id, else the driver by its own id. */
  function TimeZoneForDriver(driverId: Option<Uuid>, byUser: Option<Driver>, byId: Option<Driver>,
                             zones: map<Uuid, Zone>): (r: Result<int>)
    ensures r.Ok? ==> -18 <= r.value <= 18
  {
    if driverId.None? then Ok(0)
    else HomeZoneOffset(if byUser.Some? then byUser else byId, zones)
  }

  /** The two agree unless only the lookup by driver id finds the driver. */
  lemma TimeZoneForDriverFallback(driverId: Option<Uuid>, byUser: Option<Driver>, byId: Option<Driver>, zones: map<Uuid, Zone>)
    ensures TimeZoneForDriverAsWritten(driverId, byUser, byId, zones) != TimeZoneForDriver(driverId, byUser, byId, zones) ==>
              driverId.Some? && byUser.None? && byId.Some?
    ensures driverId.Some? && byUser.None? ==>
              TimeZoneForDriverAsWritten(driverId, byUser, byId, zones) == Ok(0) &&
              TimeZoneForDriver(driverId, byUser, byId, zones) == HomeZoneOffset(byId, zones)
  {
  }

  /** A driver known only by its id, in a zone at +5: the as-written lookup answers UTC. */
  lemma TimeZoneForDriverCounterexample()
    ensures var d := Driver.Driver(Some(7), None, Some(3));
            var zones := map[3 := Zone(Some(3), Some(5))];
            TimeZoneForDriverAsWritten(Some(7), None, Some(d), zones) == Ok(0) &&
            TimeZoneForDriver(Some(7), None, Some(d), zones) == Ok(5)
  {
  }

  // ---------------------------------------------------------------------
  // The date-overlap filters

  /** The start and end dates of a shift at an offset; an unset end reads as now. */
  function ShiftDates(shift: Shift, now: int, offsetHours: int): (int, int)
  {
    (DateAt(GetOrDefault(shift.startTime, now), offsetHours), DateAt(GetOrDefault(shift.endTime, now), offsetHours))
  }

  /** The driver and archive filter: start date no later than the range's end, end date no earlier than its start. */
  predicate InDateRange(shift: Shift, now: int, offsetHours: int, range: (int, int))
  {
    ShiftDates(shift, now, offsetHours).0 <= range.1 && ShiftDates(shift, now, offsetHours).1 >= range.0
  }

  predicate Covers(lo: int, hi: int, d: int) { lo <= d <= hi }

  /**
   * For a shift that does not end before it starts and a proper range,
   * the filter keeps it exactly when some date lies both in the range
   * and within the shift's dates.
   */
  lemma DateRangeOverlap(shift: Shift, now: int, offsetHours: int, lo: int, hi: int)
    requires lo <= hi
    requires GetOrDefault(shift.startTime, now) <= GetOrDefault(shift.endTime, now)
    ensures var (a, b) := ShiftDates(shift, now, offsetHours);
            InDateRange(shift, now, offsetHours, (lo, hi)) <==> exists d :: Covers(lo, hi, d) && Covers(a, b, d)
  {
    var (a, b) := ShiftDates(shift, now, offsetHours);
    DateAtMonotone(GetOrDefault(shift.startTime, now), GetOrDefault(shift.endTime, now), offsetHours);
    if InDateRange(shift, now, offsetHours, (lo, hi)) {
      var d := if a < lo then lo else a;
      assert Covers(lo, hi, d) && Covers(a, b, d);
    }
  }

  function KeepForDriver(active: Option<bool>, now: int, offsetHours: int, range: (int, int),
                         canAccess: Option<Uuid> -> bool): Shift -> bool
  {
    (s: Shift) => (active.None? || s.active == active) && InDateRange(s, now, offsetHours, range) && canAccess(s.id)
  }

  /**
   * getShiftsForDriver over the driver's shifts as the repository lists
   * them: the optional active filter, the date overlap in the driver's
   * zone, and the caller's access to each shift.
   */
  function ShiftsForDriver(driverShifts: seq<Shift>, driverId: Uuid, byUser: Option<Driver>, byId: Option<Driver>,
                           zones: map<Uuid, Zone>, active: Option<bool>, startDate: Option<int>, endDate: Option<int>,
                           now: int, canAccess: Option<Uuid> -> bool): (r: Result<seq<Shift>>)
  {
    var offset :- TimeZoneForDriver(Some(driverId), byUser, byId, zones);
    Ok(Filter(driverShifts, KeepForDriver(active, now, offset, MinMaxDates(startDate, endDate), canAccess)))
  }

  /** A shift is listed iff it is the driver's, matches `active` when given, overlaps the dates and may be seen. */
  lemma ShiftsForDriverMembers(driverShifts: seq<Shift>, driverId: Uuid, byUser: Option<Driver>, byId: Option<Driver>,
                               zones: map<Uuid, Zone>, active: Option<bool>, startDate: Option<int>, endDate: Option<int>,
                               now: int, canAccess: Option<Uuid> -> bool)
    ensures var r := ShiftsForDriver(driverShifts, driverId, byUser, byId, zones, active, startDate, endDate, now, canAccess);
            var tz := TimeZoneForDriver(Some(driverId), byUser, byId, zones);
            (r.Err? <==> tz.Err?) &&
            (r.Ok? ==>
               |r.value| <= |driverShifts| &&
               forall s :: s in r.value <==>
                 s in driverShifts && (active.None? || s.active == active) &&
                 InDateRange(s, now, tz.value, MinMaxDates(startDate, endDate)) && canAccess(s.id))
  {
    var tz := TimeZoneForDriver(Some(driverId), byUser, byId, zones);
    if tz.Ok? {
      FilterMembers(driverShifts, KeepForDriver(active, now, tz.value, MinMaxDates(startDate, endDate), canAccess));
    }
  }

  function KeepArchived(now: int, offsetHours: int, range: (int, int), canAccess: Option<Uuid> -> bool): Shift -> bool
  {
    (s: Shift) => InDateRange(s, now, offsetHours, range) && canAccess(s.id)
  }

  /**
   * getArchivedShifts: the live shifts followed by the archived ones
   * (the driver's, or all when no driver is given), filtered by date
   * overlap in the driver's zone (UTC without a driver) and access.
   */
  function ArchivedShifts(live: seq<Shift>, archived: seq<Shift>, driverId: Option<Uuid>, byUser: Option<Driver>,
                          byId: Option<Driver>, zones: map<Uuid, Zone>, from: Option<int>, to: Option<int>,
                          now: int, canAccess: Option<Uuid> -> bool): (r: Result<seq<Shift>>)
  {
    var offset :- TimeZoneForDriver(driverId, byUser, byId, zones);
    Ok(Filter(live + archived, KeepArchived(now, offset, MinMaxDates(from, to), canAccess)))
  }

  /**
   * The live matches come first, then the archived ones, each in the
   * repository's order; without a driver the dates are read at UTC.
   */
  lemma ArchivedShiftsOrder(live: seq<Shift>, archived: seq<Shift>, driverId: Option<Uuid>, byUser: Option<Driver>,
                            byId: Option<Driver>, zones: map<Uuid, Zone>, from: Option<int>, to: Option<int>,
                            now: int, canAccess: Option<Uuid> -> bool)
    ensures var r := ArchivedShifts(live, archived, driverId, byUser, byId, zones, from, to, now, canAccess);
            var tz := TimeZoneForDriver(driverId, byUser, byId, zones);
            (driverId.None? ==> tz == Ok(0)) &&
            (r.Err? <==> tz.Err?) &&
            (r.Ok? ==>
               var keep := KeepArchived(now, tz.value, MinMaxDates(from, to), canAccess);
               r.value == Filter(live, keep) + Filter(archived, keep) &&
               forall s :: s in r.value <==> (s in live || s in archived) && keep(s))
  {
    var tz := TimeZoneForDriver(driverId, byUser, byId, zones);
    if tz.Ok? {
      var keep := KeepArchived(now, tz.value, MinMaxDates(from, to), canAccess);
      FilterConcat(live, archived, keep);
      FilterMembers(live + archived, keep);
    }
  }

  function OnDay(date: int, now: int, offsetHours: int): Shift -> bool
  {
    (s: Shift) => InDateRange(s, now, offsetHours, (date, date))
  }

  /**
   * getShiftsForZone over the zone's shifts: an unknown zone is "Zone not
   * found"; without a date every shift is listed; with one, the zone's
   * offset is read for each shift tested, so an unset or out-of-range
   * offset throws as soon as there is a shift.
   */
  function ShiftsForZone(zones: map<Uuid, Zone>, zoneId: Uuid, zoneShifts: seq<Shift>, date: Option<int>, now: int): (r: Result<seq<Shift>>)
  {
    if zoneId !in zones then Err(NotFound("Zone not found"))
    else if date.None? || zoneShifts == [] then Ok(zoneShifts)
    else match zones[zoneId].timeZone
         case None => Err(NullPointer)
         case Some(h) =>
           var offset :- OffsetOfHours(h);
           Ok(Filter(zoneShifts, OnDay(date.value, now, offset)))
  }

  /** With a date, a listed shift is one of the zone's whose start date is not after it and whose end date is not before it. */
  lemma ShiftsForZoneMembers(zones: map<Uuid, Zone>, zoneId: Uuid, zoneShifts: seq<Shift>, date: Option<int>, now: int)
    ensures var r := ShiftsForZone(zones, zoneId, zoneShifts, date, now);
            (r.Err? <==> zoneId !in zones ||
                         (date.Some? && zoneShifts != [] &&
                          (zones[zoneId].timeZone.None? || OffsetOfHours(zones[zoneId].timeZone.value).Err?))) &&
            (r.Ok? && date.None? ==> r.value == zoneShifts) &&
            (r.Ok? && date.Some? && zoneShifts != [] ==>
               var h := zones[zoneId].timeZone.value;
               forall s :: s in r.value <==>
                 s in zoneShifts && ShiftDates(s, now, h).0 <= date.value <= ShiftDates(s, now, h).1)
  {
    if zoneId in zones && date.Some? && zoneShifts != [] && zones[zoneId].timeZone.Some? {
      var h := zones[zoneId].timeZone.value;
      if -18 <= h <= 18 {
        FilterMembers(zoneShifts, OnDay(date.value, now, h));
      }
    }
  }
}

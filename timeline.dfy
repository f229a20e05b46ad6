// SchedulingUtils: the ordering of a shift's timeline and the upsert of one
// event into it.
module Timeline {
  import opened Common
  import opened Model

  // ---------------------------------------------------------------------
  // The event comparator

  predicate IsStart(e: Event) { e.action == Some(ShiftStart) }
  predicate IsEnd(e: Event) { e.action == Some(ShiftEnd) }

  /** An unset time compares as OffsetDateTime.MAX. */
  function TimeOrMax(e: Event): int { GetOrDefault(e.time, MaxInstant) }

  /** An unset `complete` counts as false. */
  predicate IsComplete(e: Event) { GetOrDefault(e.complete, false) }

  /** Boolean.compareTo: false < true. */
  function BoolCompare(x: bool, y: bool): int
  {
    if x == y then 0 else if x then 1 else -1
  }

  function Sign(x: int): int
  {
    if x < 0 then -1 else if x > 0 then 1 else 0
  }

  /**
   * `eventComparator` as the source writes it. The identity test `a == b`
   * is read as equality of the two values.
   */
  function CompareAsWritten(a: Event, b: Event): int
  {
    if a == b then 0
    else if IsStart(a) then -1
    else if IsStart(b) then 1
    else if IsEnd(a) then 1
    else if IsEnd(b) then -1
    else if TimeOrMax(a) != TimeOrMax(b) then (if TimeOrMax(a) < TimeOrMax(b) then -1 else 1)
    else BoolCompare(IsComplete(b), IsComplete(a))
  }

  /**
   * The order the comparator is meant to impose, as a sort key:
   * SHIFT_START first, SHIFT_END last, everything else by time and then
   * complete before incomplete.
   */
  datatype SortKey = SortKey(tier: nat, time: int, incomplete: nat)

  function KeyOf(e: Event): SortKey
  {
    if IsStart(e) then SortKey(0, 0, 0)
    else if IsEnd(e) then SortKey(2, 0, 0)
    else SortKey(1, TimeOrMax(e), if IsComplete(e) then 0 else 1)
  }

  predicate KeyLe(x: SortKey, y: SortKey)
  {
    x.tier < y.tier ||
    (x.tier == y.tier && (x.time < y.time || (x.time == y.time && x.incomplete <= y.incomplete)))
  }

  /** "compare(a, b) <= 0" for the key-based comparator. */
  predicate EventLeq(a: Event, b: Event)
  {
    KeyLe(KeyOf(a), KeyOf(b))
  }

  /** The key-based comparator, the corrected form of `eventComparator`. */
  function Compare(a: Event, b: Event): (c: int)
    ensures c <= 0 <==> EventLeq(a, b)
    ensures c >= 0 <==> EventLeq(b, a)
  {
    if EventLeq(a, b) then (if EventLeq(b, a) then 0 else -1) else 1
  }

  lemma EventLeqTotalPreorder()
    ensures TotalPreorder(EventLeq)
  {
    forall a, b, c | EventLeq(a, b) && EventLeq(b, c) ensures EventLeq(a, c) {
    }
  }

  /**
   * On every pair that is not two SHIFT_START events or two SHIFT_END
   * events, the comparator as written has the sign of the corrected one.
   */
  lemma ComparatorsAgree(a: Event, b: Event)
    requires !(IsStart(a) && IsStart(b)) && !(IsEnd(a) && IsEnd(b))
    ensures Sign(CompareAsWritten(a, b)) == Compare(a, b)
  {
  }

  /**
   * Two different SHIFT_START events each compare below the other, so the
   * comparator as written breaks the antisymmetry the Comparator contract
   * demands; the corrected comparator ranks them equal.
   */
  lemma AsWrittenNotAntisymmetric(a: Event, b: Event)
    requires IsStart(a) && IsStart(b) && a != b
    ensures CompareAsWritten(a, b) < 0 && CompareAsWritten(b, a) < 0
    ensures Compare(a, b) == 0 && Compare(b, a) == 0
  {
  }

  /** A concrete pair: two SHIFT_START markers that differ only in their ids. */
  lemma AsWrittenCounterexample()
    ensures var a := BlankEvent.(id := Some(1), action := Some(ShiftStart));
            var b := BlankEvent.(id := Some(2), action := Some(ShiftStart));
            CompareAsWritten(a, b) == -1 && CompareAsWritten(b, a) == -1
  {
  }

  // ---------------------------------------------------------------------
  // sortEvents

  /** `events.sort(eventComparator)`: the JDK's stable list sort. */
  function SortTimeline(events: seq<Event>): (r: seq<Event>)
  {
    SortBy(events, EventLeq)
  }

  /** `sortEvents(shift)`: a null events list is left alone. */
  function SortEvents(shift: Shift): (r: Shift)
    ensures r.events.None? <==> shift.events.None?
    ensures r == shift.(events := r.events)
  {
    if shift.events.None? then shift
    else shift.(events := Some(SortTimeline(shift.events.value)))
  }

  ghost predicate InTimelineOrder(s: seq<Event>)
  {
    SortedBy(s, EventLeq)
  }

  /**
   * The sorted timeline is a permutation of its input in comparator order,
   * it is stable, and sorting again changes nothing.
   */
  lemma {:induction false} SortTimelineCorrect(events: seq<Event>)
    ensures multiset(SortTimeline(events)) == multiset(events)
    ensures InTimelineOrder(SortTimeline(events))
    ensures forall z :: EquivalentTo(SortTimeline(events), EventLeq, z) == EquivalentTo(events, EventLeq, z)
    ensures SortTimeline(SortTimeline(events)) == SortTimeline(events)
  {
    EventLeqTotalPreorder();
    SortBySorted(events, EventLeq);
    forall z ensures EquivalentTo(SortTimeline(events), EventLeq, z) == EquivalentTo(events, EventLeq, z) {
      SortByStable(events, EventLeq, z);
    }
    SortByIdempotent(events, EventLeq);
  }

  /**
   * What the order means on the timeline: a SHIFT_START event is preceded
   * only by SHIFT_START events, a SHIFT_END event is followed only by
   * SHIFT_END events, other events ascend by time (unset = MAX), and on
   * equal times a complete event is preceded only by complete ones.
   */
  lemma TimelineOrder(s: seq<Event>, i: int, j: int)
    requires InTimelineOrder(s)
    requires 0 <= i < j < |s|
    ensures IsStart(s[j]) ==> IsStart(s[i])
    ensures IsEnd(s[i]) ==> IsEnd(s[j])
    ensures !IsStart(s[i]) && !IsEnd(s[i]) && !IsStart(s[j]) && !IsEnd(s[j]) ==>
              TimeOrMax(s[i]) <= TimeOrMax(s[j]) &&
              (TimeOrMax(s[i]) == TimeOrMax(s[j]) && IsComplete(s[j]) ==> IsComplete(s[i]))
  {
    assert EventLeq(s[i], s[j]);
  }

  lemma SortEventsIdempotent(shift: Shift)
    ensures SortEvents(SortEvents(shift)) == SortEvents(shift)
    ensures shift.events.None? ==> SortEvents(shift) == shift
  {
    if shift.events.Some? {
      SortTimelineCorrect(shift.events.value);
    }
  }

  // ---------------------------------------------------------------------
  // updateEvent: the non-null merge

  /** `updateEvent(existing, event)`: copies the non-null fields of `event`, never the id or the location. */
  function Merge(existing: Event, event: Event): (m: Event)
  {
    existing.(
      time := if event.time.Some? then event.time else existing.time,
      action := if event.action.Some? then event.action else existing.action,
      riderId := if event.riderId.Some? then event.riderId else existing.riderId,
      tripRequestId := if event.tripRequestId.Some? then event.tripRequestId else existing.tripRequestId,
      placeId := if event.placeId.Some? then event.placeId else existing.placeId,
      leftFloat := if event.leftFloat.Some? then event.leftFloat else existing.leftFloat,
      rightFloat := if event.rightFloat.Some? then event.rightFloat else existing.rightFloat,
      passengerDelta := if event.passengerDelta.Some? then event.passengerDelta else existing.passengerDelta,
      complete := if event.complete.Some? then event.complete else existing.complete)
  }

  /**
   * The merge keeps the id and location of the existing event, takes every
   * other field from the update where it is set, is a no-op when an event
   * is merged into itself, and merging the same update twice is merging it
   * once.
   */
  lemma MergeProperties(existing: Event, event: Event)
    ensures Merge(existing, event).id == existing.id
    ensures Merge(existing, event).location == existing.location
    ensures Merge(existing, event).time == Pick(event.time, existing.time)
    ensures Merge(existing, event).action == Pick(event.action, existing.action)
    ensures Merge(existing, event).riderId == Pick(event.riderId, existing.riderId)
    ensures Merge(existing, event).tripRequestId == Pick(event.tripRequestId, existing.tripRequestId)
    ensures Merge(existing, event).placeId == Pick(event.placeId, existing.placeId)
    ensures Merge(existing, event).leftFloat == Pick(event.leftFloat, existing.leftFloat)
    ensures Merge(existing, event).rightFloat == Pick(event.rightFloat, existing.rightFloat)
    ensures Merge(existing, event).passengerDelta == Pick(event.passengerDelta, existing.passengerDelta)
    ensures Merge(existing, event).complete == Pick(event.complete, existing.complete)
    ensures Merge(existing, existing) == existing
    ensures Merge(Merge(existing, event), event) == Merge(existing, event)
  {
  }

  // ---------------------------------------------------------------------
  // addOrUpdateEvent

  /** Upsert identity: (tripRequestId, action) under null-safe equality. */
  datatype EventKey = EventKey(tripRequestId: Option<Uuid>, action: Option<EventAction>)

  function KeyOfEvent(e: Event): EventKey
  {
    EventKey(e.tripRequestId, e.action)
  }

  /** The index of the first event with the given key, as the stream's findFirst finds it. */
  function FirstWithKey(s: seq<Event>, k: EventKey): (r: Option<nat>)
    ensures r.Some? ==> r.value < |s| && KeyOfEvent(s[r.value]) == k &&
                        forall j :: 0 <= j < r.value ==> KeyOfEvent(s[j]) != k
    ensures r.None? ==> forall j :: 0 <= j < |s| ==> KeyOfEvent(s[j]) != k
  {
    if s == [] then None
    else if KeyOfEvent(s[0]) == k then Some(0)
    else match FirstWithKey(s[1..], k)
      case None => None
      case Some(i) => Some(i + 1)
  }

  /** The first index of key k is the one before which no event has key k. */
  lemma FirstWithKeyAt(s: seq<Event>, k: EventKey, i: nat)
    requires i < |s| && KeyOfEvent(s[i]) == k
    requires forall j :: 0 <= j < i ==> KeyOfEvent(s[j]) != k
    ensures FirstWithKey(s, k) == Some(i)
  {
    var r := FirstWithKey(s, k);
    assert r.Some?;
    assert !(r.value < i);
  }

  /** The index of the first event whose id is `id` (nullSafeEquals against a non-null id). */
  function FirstWithId(s: seq<Event>, id: Uuid): (r: Option<nat>)
    ensures r.Some? ==> r.value < |s| && s[r.value].id == Some(id) &&
                        forall j :: 0 <= j < r.value ==> s[j].id != Some(id)
    ensures r.None? ==> forall j :: 0 <= j < |s| ==> s[j].id != Some(id)
  {
    if s == [] then None
    else if s[0].id == Some(id) then Some(0)
    else match FirstWithId(s[1..], id)
      case None => None
      case Some(i) => Some(i + 1)
  }

  /** At most one event per upsert key: the invariant the upsert keeps. */
  ghost predicate UniqueKeys(s: seq<Event>)
  {
    KeysDistinct(s, KeyOfEvent)
  }

  /** The events whose key is not k, in order. */
  function WithoutKey(s: seq<Event>, k: EventKey): (r: seq<Event>)
    ensures |r| <= |s|
  {
    if s == [] then []
    else (if KeyOfEvent(s[0]) == k then [] else [s[0]]) + WithoutKey(s[1..], k)
  }

  /** WithoutKey keeps exactly the events of the other keys. */
  lemma {:induction false} WithoutKeyMembers(s: seq<Event>, k: EventKey)
    ensures forall e :: e in WithoutKey(s, k) <==> e in s && KeyOfEvent(e) != k
  {
    if s != [] {
      WithoutKeyMembers(s[1..], k);
      assert s == [s[0]] + s[1..];
    }
  }

  /** A fresh id is given only to an event that has none. */
  function WithId(event: Event, freshId: Uuid): (e: Event)
  {
    if event.id.None? then event.(id := Some(freshId)) else event
  }

  /** The second phase: merge into the first same-key event, or append. */
  function Upsert(events: seq<Event>, event: Event): (r: seq<Event>)
  {
    match FirstWithKey(events, KeyOfEvent(event))
    case Some(k) => events[k := Merge(events[k], event)]
    case None => events + [event]
  }

  /** The event as the anchor phase re-adds it: stamped 1000 ns after a timed anchor. */
  function Stamped(event: Event, anchor: Event): (e: Event)
  {
    if anchor.time.Some? then event.(time := Some(anchor.time.value + 1000)) else event
  }

  /** The list without its first event of key k, if there is one. */
  function DropKey(events: seq<Event>, k: EventKey): seq<Event>
  {
    match FirstWithKey(events, k)
    case Some(i) => RemoveAt(events, i)
    case None => events
  }

  /**
   * The anchor phase for an anchor found at index p: drop the first
   * same-key event, then `add(p + 1, event)`, which throws when p + 1 is
   * past the end of the shortened list.
   */
  function Reposition(events: seq<Event>, event: Event, p: nat): (r: Result<seq<Event>>)
    requires p < |events|
  {
    var rest := DropKey(events, KeyOfEvent(event));
    if p + 1 > |rest| then Err(IndexOutOfBounds)
    else Ok(InsertAt(rest, p + 1, event))
  }

  /** `addOrUpdateEvent` on the events list; `freshId` is the UUID a null id would receive. */
  function AddOrUpdate(events: seq<Event>, event: Event, anchorId: Option<Uuid>, freshId: Uuid): (r: Result<seq<Event>>)
  {
    var e1 := WithId(event, freshId);
    var anchorAt := if anchorId.Some? then FirstWithId(events, anchorId.value) else None;
    if anchorAt.None? then Ok(SortTimeline(Upsert(events, e1)))
    else
      var e2 := Stamped(e1, events[anchorAt.value]);
      match Reposition(events, e2, anchorAt.value)
      case Err(err) => Err(err)
      case Ok(placed) => Ok(SortTimeline(Upsert(placed, e2)))
  }

  /** `addOrUpdateEvent(shift, event, anchorEventId)`: a null events list is read as empty. */
  function Upserted(shift: Shift, event: Event, anchorId: Option<Uuid>, freshId: Uuid): (r: Result<Shift>)
    ensures r.Ok? ==> r.value == shift.(events := r.value.events) && r.value.events.Some?
  {
    match AddOrUpdate(GetOrDefault(shift.events, []), event, anchorId, freshId)
    case Err(err) => Err(err)
    case Ok(evs) => Ok(shift.(events := Some(evs)))
  }

  // ---------------------------------------------------------------------
  // What the upsert guarantees

  lemma {:induction false} WithoutKeyConcat(a: seq<Event>, b: seq<Event>, k: EventKey)
    ensures WithoutKey(a + b, k) == WithoutKey(a, k) + WithoutKey(b, k)
  {
    if a != [] {
      assert (a + b)[0] == a[0] && (a + b)[1..] == a[1..] + b;
      WithoutKeyConcat(a[1..], b, k);
      var h := if KeyOfEvent(a[0]) == k then [] else [a[0]];
      assert WithoutKey(a + b, k) == h + WithoutKey(a[1..] + b, k);
      assert WithoutKey(a, k) == h + WithoutKey(a[1..], k);
    } else {
      assert a + b == b;
    }
  }

  /** A list with no event of key k loses nothing to WithoutKey. */
  lemma {:induction false} WithoutAbsentKey(s: seq<Event>, k: EventKey)
    requires FirstWithKey(s, k).None?
    ensures WithoutKey(s, k) == s
  {
    if s != [] {
      WithoutAbsentKey(s[1..], k);
    }
  }

  /** The event of key k, when there is one. */
  function KeyedPart(s: seq<Event>, k: EventKey): (m: multiset<Event>)
  {
    match FirstWithKey(s, k)
    case Some(i) => multiset{s[i]}
    case None => multiset{}
  }

  /** With unique keys, a list is its events of other keys plus its one event of key k. */
  lemma {:induction false} SplitByKey(s: seq<Event>, k: EventKey)
    requires UniqueKeys(s)
    ensures multiset(s) == multiset(WithoutKey(s, k)) + KeyedPart(s, k)
  {
    if s != [] {
      UniqueKeysTail(s);
      SplitByKey(s[1..], k);
      SplitByKeyStep(s, k);
    }
  }

  /** The tail of a list with unique keys has unique keys, none of them the head's. */
  lemma UniqueKeysTail(s: seq<Event>)
    requires UniqueKeys(s) && s != []
    ensures UniqueKeys(s[1..]) && FirstWithKey(s[1..], KeyOfEvent(s[0])).None?
  {
    forall i, j | 0 <= i < j < |s[1..]| ensures KeyOfEvent(s[1..][i]) != KeyOfEvent(s[1..][j]) {
      assert s[1..][i] == s[i + 1] && s[1..][j] == s[j + 1];
    }
    forall j | 0 <= j < |s[1..]| ensures KeyOfEvent(s[1..][j]) != KeyOfEvent(s[0]) {
      assert s[1..][j] == s[j + 1];
    }
  }

  /** One step of SplitByKey: the head goes to the part of key k or to the others. */
  lemma SplitByKeyStep(s: seq<Event>, k: EventKey)
    requires s != [] && FirstWithKey(s[1..], KeyOfEvent(s[0])).None?
    requires multiset(s[1..]) == multiset(WithoutKey(s[1..], k)) + KeyedPart(s[1..], k)
    ensures multiset(s) == multiset(WithoutKey(s, k)) + KeyedPart(s, k)
  {
    assert s == [s[0]] + s[1..];
    var rest := WithoutKey(s[1..], k);
    if KeyOfEvent(s[0]) == k {
      assert WithoutKey(s, k) == rest;
      assert KeyedPart(s, k) == multiset{s[0]} && KeyedPart(s[1..], k) == multiset{};
    } else {
      assert WithoutKey(s, k) == [s[0]] + rest;
      assert multiset([s[0]] + rest) == multiset{s[0]} + multiset(rest);
      if FirstWithKey(s[1..], k).Some? {
        var i := FirstWithKey(s[1..], k).value;
        assert s[1..][i] == s[i + 1];
      }
      assert KeyedPart(s, k) == KeyedPart(s[1..], k);
    }
  }

  /** The event the upsert leaves under key k: the existing one merged, or the new one. */
  function UpsertTarget(events: seq<Event>, e: Event): (t: Event)
  {
    match FirstWithKey(events, KeyOfEvent(e))
    case Some(i) => Merge(events[i], e)
    case None => e
  }

  lemma UpsertMerges(events: seq<Event>, e: Event, i: nat)
    requires UniqueKeys(events)
    requires FirstWithKey(events, KeyOfEvent(e)) == Some(i)
    ensures UniqueKeys(Upsert(events, e))
    ensures WithoutKey(Upsert(events, e), KeyOfEvent(e)) == WithoutKey(events, KeyOfEvent(e))
    ensures FirstWithKey(Upsert(events, e), KeyOfEvent(e)) == Some(i)
  {
    var k := KeyOfEvent(e);
    var m := Merge(events[i], e);
    var r := Upsert(events, e);
    assert KeyOfEvent(m) == k;
    assert r == events[..i] + [m] + events[i + 1..];
    assert events == events[..i] + [events[i]] + events[i + 1..];
    WithoutKeyConcat(events[..i] + [m], events[i + 1..], k);
    WithoutKeyConcat(events[..i], [m], k);
    WithoutKeyConcat(events[..i] + [events[i]], events[i + 1..], k);
    WithoutKeyConcat(events[..i], [events[i]], k);
    assert forall a :: 0 <= a < |r| ==> KeyOfEvent(r[a]) == KeyOfEvent(events[a]);
  }

  lemma UpsertAppends(events: seq<Event>, e: Event)
    requires UniqueKeys(events)
    requires FirstWithKey(events, KeyOfEvent(e)).None?
    ensures UniqueKeys(Upsert(events, e))
    ensures WithoutKey(Upsert(events, e), KeyOfEvent(e)) == WithoutKey(events, KeyOfEvent(e))
    ensures FirstWithKey(Upsert(events, e), KeyOfEvent(e)) == Some(|events|)
  {
    var k := KeyOfEvent(e);
    var r := Upsert(events, e);
    WithoutKeyConcat(events, [e], k);
    assert WithoutKey([e], k) == [];
    assert r == events + [e];
    FirstWithKeyAt(r, k, |events|);
    forall a, b | 0 <= a < b < |r| ensures KeyOfEvent(r[a]) != KeyOfEvent(r[b]) {
      assert r[a] == events[a];
      if b < |events| {
        assert r[b] == events[b];
      }
    }
  }

  /**
   * Merge-or-append keeps keys unique, grows the list only when the key is
   * new, leaves every event of another key in place and in order, and holds
   * exactly one event of the key: the merged or the appended one.
   */
  lemma UpsertProperties(events: seq<Event>, e: Event)
    requires UniqueKeys(events)
    ensures UniqueKeys(Upsert(events, e))
    ensures |Upsert(events, e)| == |events| + (if FirstWithKey(events, KeyOfEvent(e)).Some? then 0 else 1)
    ensures WithoutKey(Upsert(events, e), KeyOfEvent(e)) == WithoutKey(events, KeyOfEvent(e))
    ensures multiset(Upsert(events, e)) ==
              multiset(WithoutKey(events, KeyOfEvent(e))) + multiset{UpsertTarget(events, e)}
  {
    var k := KeyOfEvent(e);
    if FirstWithKey(events, k).Some? {
      UpsertMerges(events, e, FirstWithKey(events, k).value);
    } else {
      UpsertAppends(events, e);
    }
    SplitByKey(Upsert(events, e), k);
  }

  lemma WithIdKeepsKey(e: Event, freshId: Uuid, anchor: Event)
    ensures KeyOfEvent(WithId(e, freshId)) == KeyOfEvent(e)
    ensures KeyOfEvent(Stamped(WithId(e, freshId), anchor)) == KeyOfEvent(e)
    ensures WithId(e, freshId).id.Some?
    ensures e.id.Some? ==> WithId(e, freshId).id == e.id
  {
  }

  /**
   * Without an anchor (or with an anchor id that is not on the timeline)
   * the upsert cannot fail; the result is in timeline order, keeps keys
   * unique, grows by one only for a new key, keeps every event of another
   * key, and holds the new event merged into the one it updates, carrying
   * its own id or the fresh one.
   */
  lemma AddOrUpdateWithoutAnchor(events: seq<Event>, e: Event, anchorId: Option<Uuid>, freshId: Uuid)
    requires UniqueKeys(events)
    requires anchorId.None? || FirstWithId(events, anchorId.value).None?
    ensures AddOrUpdate(events, e, anchorId, freshId).Ok?
    ensures var r := AddOrUpdate(events, e, anchorId, freshId).value;
            var e1 := WithId(e, freshId);
            InTimelineOrder(r) && UniqueKeys(r) &&
            |r| == |events| + (if FirstWithKey(events, KeyOfEvent(e)).Some? then 0 else 1) &&
            multiset(r) == multiset(WithoutKey(events, KeyOfEvent(e))) + multiset{UpsertTarget(events, e1)}
  {
    var e1 := WithId(e, freshId);
    WithIdKeepsKey(e, freshId, e);
    UpsertProperties(events, e1);
    var u := Upsert(events, e1);
    SortTimelineCorrect(u);
    KeysDistinctPermutation(u, SortTimeline(u), KeyOfEvent);
  }

  /** Removing the event of key k leaves no event of key k and the others in order. */
  lemma RemoveKeyed(events: seq<Event>, k: EventKey, i: nat)
    requires UniqueKeys(events)
    requires FirstWithKey(events, k) == Some(i)
    ensures FirstWithKey(RemoveAt(events, i), k).None?
    ensures WithoutKey(RemoveAt(events, i), k) == WithoutKey(events, k)
    ensures UniqueKeys(RemoveAt(events, i))
  {
    var rest := RemoveAt(events, i);
    assert events == events[..i] + [events[i]] + events[i + 1..];
    assert rest == events[..i] + events[i + 1..];
    WithoutKeyConcat(events[..i] + [events[i]], events[i + 1..], k);
    WithoutKeyConcat(events[..i], [events[i]], k);
    WithoutKeyConcat(events[..i], events[i + 1..], k);
    assert WithoutKey([events[i]], k) == [];
    RemoveAtUnique(events, k, i);
  }

  /** With unique keys, what is left after removing the event of key k holds no key k and no key twice. */
  lemma RemoveAtUnique(events: seq<Event>, k: EventKey, i: nat)
    requires UniqueKeys(events)
    requires FirstWithKey(events, k) == Some(i)
    ensures FirstWithKey(RemoveAt(events, i), k).None?
    ensures UniqueKeys(RemoveAt(events, i))
  {
    var rest := RemoveAt(events, i);
    assert rest == events[..i] + events[i + 1..];
    forall j | 0 <= j < |rest| ensures KeyOfEvent(rest[j]) != k {
      if j >= i {
        assert rest[j] == events[j + 1];
        assert KeyOfEvent(events[i]) != KeyOfEvent(events[j + 1]);
      }
    }
    forall a, b | 0 <= a < b < |rest| ensures KeyOfEvent(rest[a]) != KeyOfEvent(rest[b]) {
      var a' := if a < i then a else a + 1;
      var b' := if b < i then b else b + 1;
      assert rest[a] == events[a'] && rest[b] == events[b'];
    }
  }

  /** Inserting the one event of key k into a list without that key. */
  lemma InsertKeyed(rest: seq<Event>, e: Event, q: nat)
    requires UniqueKeys(rest) && q <= |rest|
    requires FirstWithKey(rest, KeyOfEvent(e)).None?
    ensures UniqueKeys(InsertAt(rest, q, e))
    ensures FirstWithKey(InsertAt(rest, q, e), KeyOfEvent(e)) == Some(q)
    ensures multiset(InsertAt(rest, q, e)) == multiset(rest) + multiset{e}
  {
    var k := KeyOfEvent(e);
    var placed := InsertAt(rest, q, e);
    assert placed == rest[..q] + [e] + rest[q..];
    assert rest == rest[..q] + rest[q..];
    FirstWithKeyAt(placed, k, q);
    forall a, b | 0 <= a < b < |placed| ensures KeyOfEvent(placed[a]) != KeyOfEvent(placed[b]) {
      if a == q {
        assert placed[b] == rest[b - 1];
      } else if b == q {
        assert placed[a] == rest[a];
      } else {
        var a' := if a < q then a else a - 1;
        var b' := if b < q then b else b - 1;
        assert placed[a] == rest[a'] && placed[b] == rest[b'];
      }
    }
  }

  /** Removing the first event of key k and inserting one of key k leaves the others alone. */
  lemma RepositionKeepsOthers(events: seq<Event>, e: Event, p: nat)
    requires UniqueKeys(events) && p < |events|
    requires Reposition(events, e, p).Ok?
    ensures var placed := Reposition(events, e, p).value;
            UniqueKeys(placed) &&
            FirstWithKey(placed, KeyOfEvent(e)) == Some(p + 1) &&
            multiset(placed) == multiset(WithoutKey(events, KeyOfEvent(e))) + multiset{e}
  {
    var k := KeyOfEvent(e);
    var rest := DropKey(events, k);
    DropKeyFacts(events, k);
    assert Reposition(events, e, p) == Ok(InsertAt(rest, p + 1, e));
    InsertKeyed(rest, e, p + 1);
  }

  /** With unique keys, dropping the event of key k leaves exactly the events of other keys. */
  lemma DropKeyFacts(events: seq<Event>, k: EventKey)
    requires UniqueKeys(events)
    ensures var rest := DropKey(events, k);
            UniqueKeys(rest) && FirstWithKey(rest, k).None? && rest == WithoutKey(events, k)
  {
    match FirstWithKey(events, k)
    case Some(i) => {
      RemoveKeyed(events, k, i);
      WithoutAbsentKey(RemoveAt(events, i), k);
    }
    case None => {
      WithoutAbsentKey(events, k);
    }
  }

  /** The length that follows from keeping the others and one event of key k. */
  lemma LengthFromSplit(events: seq<Event>, k: EventKey, r: seq<Event>, x: Event)
    requires UniqueKeys(events)
    requires multiset(r) == multiset(WithoutKey(events, k)) + multiset{x}
    ensures |r| == |events| + (if FirstWithKey(events, k).Some? then 0 else 1)
  {
    SplitByKey(events, k);
    assert |multiset(r)| == |r|;
    assert |multiset(events)| == |events|;
    assert |multiset(WithoutKey(events, k))| == |WithoutKey(events, k)|;
  }

  /**
   * With the anchor found at index p, the upsert fails (the positional
   * insert is out of bounds) exactly when the anchor is the last event and
   * an event of the same key was removed.
   */
  lemma AddOrUpdateAnchorFailure(events: seq<Event>, e: Event, anchorId: Uuid, freshId: Uuid, p: nat)
    requires FirstWithId(events, anchorId) == Some(p)
    ensures var r := AddOrUpdate(events, e, Some(anchorId), freshId);
            (r.Err? <==> FirstWithKey(events, KeyOfEvent(e)).Some? && p == |events| - 1) &&
            (r.Err? ==> r.error == IndexOutOfBounds)
  {
    WithIdKeepsKey(e, freshId, events[p]);
  }

  /**
   * When it succeeds, the event, stamped 1000 ns after a timed anchor,
   * replaces the one of its key outright (nothing of the old event
   * survives), every event of another key is kept, keys stay unique and
   * the result is in timeline order.
   */
  lemma AddOrUpdateAnchorSuccess(events: seq<Event>, e: Event, anchorId: Uuid, freshId: Uuid, p: nat)
    requires UniqueKeys(events)
    requires FirstWithId(events, anchorId) == Some(p)
    ensures var r := AddOrUpdate(events, e, Some(anchorId), freshId);
            var e2 := Stamped(WithId(e, freshId), events[p]);
            r.Ok? ==>
              InTimelineOrder(r.value) && UniqueKeys(r.value) &&
              |r.value| == |events| + (if FirstWithKey(events, KeyOfEvent(e)).Some? then 0 else 1) &&
              multiset(r.value) == multiset(WithoutKey(events, KeyOfEvent(e))) + multiset{e2} &&
              (events[p].time.Some? ==> e2.time == Some(events[p].time.value + 1000))
  {
    var e2 := Stamped(WithId(e, freshId), events[p]);
    assert events[p].time.Some? ==> e2.time == Some(events[p].time.value + 1000);
    WithIdKeepsKey(e, freshId, events[p]);
    if Reposition(events, e2, p).Ok? {
      var placed := Reposition(events, e2, p).value;
      RepositionKeepsOthers(events, e2, p);
      MergeProperties(e2, e2);
      assert Upsert(placed, e2) == placed;
      AnchoredResult(events, e, anchorId, freshId, p);
      SortPlaced(events, e2, placed);
    }
  }

  /** With the anchor at p and the positional insert in bounds, the result is the sorted upsert into the placed list. */
  lemma AnchoredResult(events: seq<Event>, e: Event, anchorId: Uuid, freshId: Uuid, p: nat)
    requires FirstWithId(events, anchorId) == Some(p)
    requires Reposition(events, Stamped(WithId(e, freshId), events[p]), p).Ok?
    ensures var e2 := Stamped(WithId(e, freshId), events[p]);
            AddOrUpdate(events, e, Some(anchorId), freshId) ==
              Ok(SortTimeline(Upsert(Reposition(events, e2, p).value, e2)))
  {
  }

  /** Sorting the repositioned list keeps what the repositioning established. */
  lemma SortPlaced(events: seq<Event>, e2: Event, placed: seq<Event>)
    requires UniqueKeys(events) && UniqueKeys(placed)
    requires multiset(placed) == multiset(WithoutKey(events, KeyOfEvent(e2))) + multiset{e2}
    ensures var r := SortTimeline(placed);
            InTimelineOrder(r) && UniqueKeys(r) &&
            |r| == |events| + (if FirstWithKey(events, KeyOfEvent(e2)).Some? then 0 else 1) &&
            multiset(r) == multiset(WithoutKey(events, KeyOfEvent(e2))) + multiset{e2}
  {
    SortTimelineCorrect(placed);
    KeysDistinctPermutation(placed, SortTimeline(placed), KeyOfEvent);
    LengthFromSplit(events, KeyOfEvent(e2), SortTimeline(placed), e2);
  }

  // ---------------------------------------------------------------------
  // The keys present on a timeline

  /** The upsert keys that occur on a list of events. */
  ghost function Keys(s: seq<Event>): set<EventKey>
  {
    set e | e in s :: KeyOfEvent(e)
  }

  lemma KeysAndFirst(s: seq<Event>, k: EventKey)
    ensures k in Keys(s) <==> FirstWithKey(s, k).Some?
  {
    if FirstWithKey(s, k).Some? {
      assert s[FirstWithKey(s, k).value] in s;
    }
  }

  /** Two lists holding the same events hold the same keys. */
  lemma KeysOfPermutation(a: seq<Event>, b: seq<Event>)
    requires multiset(a) == multiset(b)
    ensures Keys(a) == Keys(b)
  {
    forall e ensures e in a <==> e in b {
      assert e in a <==> e in multiset(a);
      assert e in b <==> e in multiset(b);
    }
  }

  /** A list made of the events of other keys plus one event of key k holds the old keys and k. */
  lemma KeysAfterUpsert(events: seq<Event>, k: EventKey, r: seq<Event>, x: Event)
    requires KeyOfEvent(x) == k
    requires multiset(r) == multiset(WithoutKey(events, k)) + multiset{x}
    ensures Keys(r) == Keys(events) + {k}
  {
    WithoutKeyMembers(events, k);
    forall e ensures e in r <==> e in WithoutKey(events, k) || e == x {
      assert e in r <==> e in multiset(r);
      assert e in WithoutKey(events, k) <==> e in multiset(WithoutKey(events, k));
    }
    forall key | key in Keys(events) + {k} ensures key in Keys(r) {
      if key != k {
        var e :| e in events && KeyOfEvent(e) == key;
        assert e in WithoutKey(events, k);
      } else {
        assert x in r;
      }
    }
  }

  /** `addOrUpdateEvent(shift, event, null)`: the upsert with no anchor, which cannot fail. */
  function Added(shift: Shift, event: Event, freshId: Uuid): (r: Shift)
    ensures Upserted(shift, event, None, freshId) == Ok(r)
  {
    shift.(events := Some(SortTimeline(Upsert(GetOrDefault(shift.events, []), WithId(event, freshId)))))
  }

  /** Sorting a shift just added to changes nothing. */
  lemma SortAddedUnchanged(shift: Shift, event: Event, freshId: Uuid)
    ensures SortEvents(Added(shift, event, freshId)) == Added(shift, event, freshId)
  {
    SortTimelineCorrect(Upsert(GetOrDefault(shift.events, []), WithId(event, freshId)));
  }

  /**
   * With no anchor, the upsert adds the event's key to the timeline,
   * grows it by one exactly when that key is new, keeps keys unique, and
   * leaves it in timeline order; nothing else of the shift changes.
   */
  lemma AddedKeys(shift: Shift, e: Event, freshId: Uuid)
    requires UniqueKeys(GetOrDefault(shift.events, []))
    ensures var before := GetOrDefault(shift.events, []);
            var after := Added(shift, e, freshId).events.value;
            Keys(after) == Keys(before) + {KeyOfEvent(e)} &&
            |after| == |before| + (if KeyOfEvent(e) in Keys(before) then 0 else 1) &&
            UniqueKeys(after) && InTimelineOrder(after)
    ensures Added(shift, e, freshId) == shift.(events := Added(shift, e, freshId).events)
  {
    var before := GetOrDefault(shift.events, []);
    var e1 := WithId(e, freshId);
    WithIdKeepsKey(e, freshId, e);
    AddOrUpdateWithoutAnchor(before, e, None, freshId);
    var after := Added(shift, e, freshId).events.value;
    assert after == AddOrUpdate(before, e, None, freshId).value;
    KeysAndFirst(before, KeyOfEvent(e));
    KeysAfterUpsert(before, KeyOfEvent(e), after, UpsertTarget(before, e1));
  }

  /** Sorting keeps the length, the keys and their uniqueness. */
  lemma SortKeepsKeys(s: seq<Event>)
    ensures |SortTimeline(s)| == |s|
    ensures Keys(SortTimeline(s)) == Keys(s)
    ensures UniqueKeys(s) ==> UniqueKeys(SortTimeline(s))
  {
    SortTimelineCorrect(s);
    assert |multiset(SortTimeline(s))| == |multiset(s)|;
    KeysOfPermutation(s, SortTimeline(s));
    if UniqueKeys(s) {
      KeysDistinctPermutation(s, SortTimeline(s), KeyOfEvent);
    }
  }

  // ---------------------------------------------------------------------
  // The imperative form of addOrUpdateEvent

  /** The IntStream search for the anchor: the first index whose event id is `id`, or -1. */
  method FindEventWithId(events: seq<Event>, id: Uuid) returns (i: int)
    ensures i == -1 <==> FirstWithId(events, id).None?
    ensures i != -1 ==> FirstWithId(events, id) == Some(i)
  {
    i := 0;
    while i < |events|
      invariant 0 <= i <= |events|
      invariant forall j :: 0 <= j < i ==> events[j].id != Some(id)
    {
      if events[i].id == Some(id) {
        return;
      }
      i := i + 1;
    }
    i := -1;
  }

  /** The stream search for the first event with the same upsert key, or -1. */
  method FindEventWithKey(events: seq<Event>, k: EventKey) returns (i: int)
    ensures i == -1 <==> FirstWithKey(events, k).None?
    ensures i != -1 ==> FirstWithKey(events, k) == Some(i)
  {
    i := 0;
    while i < |events|
      invariant 0 <= i <= |events|
      invariant forall j :: 0 <= j < i ==> KeyOfEvent(events[j]) != k
    {
      if KeyOfEvent(events[i]) == k {
        return;
      }
      i := i + 1;
    }
    i := -1;
  }

  /** The anchor phase of `addOrUpdateEvent`, with the anchor found at index p. */
  method RepositionEvent(events: seq<Event>, ev: Event, p: nat) returns (r: Result<seq<Event>>)
    requires p < |events|
    ensures r == Reposition(events, ev, p)
  {
    var rest := events;
    var k := FindEventWithKey(events, KeyOfEvent(ev));
    if k != -1 {
      rest := events[..k] + events[k + 1..];
    }
    if p + 1 > |rest| {
      return Err(IndexOutOfBounds);
    }
    r := Ok(rest[..p + 1] + [ev] + rest[p + 1..]);
  }

  /** The second phase: merge into the first same-key event, or append. */
  method UpsertEvent(events: seq<Event>, ev: Event) returns (r: seq<Event>)
    ensures r == Upsert(events, ev)
  {
    var k := FindEventWithKey(events, KeyOfEvent(ev));
    if k != -1 {
      r := events[k := Merge(events[k], ev)];
    } else {
      r := events + [ev];
    }
  }

  /**
   * `addOrUpdateEvent`, step by step on the shift's list: id, anchor
   * search, stamping, removal, positional insert, merge or append, sort.
   */
  method AddOrUpdateEvent(shift: Shift, event: Event, anchorId: Option<Uuid>, freshId: Uuid) returns (r: Result<Shift>)
    ensures r == Upserted(shift, event, anchorId, freshId)
  {
    var events := GetOrDefault(shift.events, []);
    var ev := WithId(event, freshId);
    if anchorId.Some? {
      var p := FindEventWithId(events, anchorId.value);
      if p != -1 {
        ev := Stamped(ev, events[p]);
        var placed := RepositionEvent(events, ev, p);
        if placed.Err? {
          return Err(placed.error);
        }
        events := placed.value;
      }
    }
    events := UpsertEvent(events, ev);
    r := Ok(shift.(events := Some(SortTimeline(events))));
  }
}

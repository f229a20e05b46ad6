// Places: adding one for its owner, the lists of places a user may see,
// updating one (re-geocoding when its address changes) and giving one an
// icon.
module PlaceApi {
  import opened Common
  import opened Model
  import opened Store
  import opened MapService
  import opened DataRepositoryUtils

  const UserNotFound: Error := NotFound("User not found")
  const NotAuthenticated: Error := NotFound("User not authenticated")
  const PlaceNotFound: Error := NotFound("Place not found")
  const IconNotFound: Error := NotFound("Icon not found")

  // ---------------------------------------------------------------------
  // addPlace

  /** A place is geocoded on insertion when its location, latitude or longitude is null or exactly zero. */
  predicate NeedsGeocode(p: Place)
  {
    p.location.None? ||
    p.location.value.latitude.None? || p.location.value.latitude.value == 0.0 ||
    p.location.value.longitude.None? || p.location.value.longitude.value == 0.0
  }

  /** The place addPlace inserts: its fresh id, geocoded if it needs it, owned by `ownerId`. */
  function InsertedPlace(place: Place, freshId: Uuid, ownerId: Uuid, lookup: Geocoder): (r: Place)
    ensures r.id == Some(freshId) && r.userId == Some(ownerId)
    ensures r.(location := place.location, zoneId := place.zoneId) == place.(id := Some(freshId), userId := Some(ownerId))
    ensures !NeedsGeocode(place) ==> r.location == place.location && r.zoneId == place.zoneId
    ensures (NeedsGeocode(place) && place.address.Some? && lookup(place.address.value).Some?) ==>
              r.location == Some(lookup(place.address.value).value.0)
  {
    var withId := place.(id := Some(freshId));
    var located := if NeedsGeocode(withId) then Geocode(lookup, withId) else withId;
    located.(userId := Some(ownerId))
  }

  /** `user.addPlacesItem(placeId)`: a user without a list gets a new one. */
  function WithPlace(u: User, placeId: Uuid): (r: User)
    ensures r.places.Some? && r.places.value == GetOrDefault(u.places, []) + [placeId]
    ensures r.(places := u.places) == u
  {
    u.(places := Some(GetOrDefault(u.places, []) + [placeId]))
  }

  /**
   * addPlace. The owner is the user the place names, or the authenticated
   * user when it names none; `authenticated` is the id of the stored user
   * the principal's name finds. The place is inserted under a fresh id and
   * appended to the owner's places.
   */
  method AddPlace(db: Repositories, place: Place, authenticated: Option<Uuid>, freshId: Uuid, lookup: Geocoder)
    returns (r: Result<Place>)
    requires db.Valid() && freshId !in db.places
    requires authenticated.Some? ==> authenticated.value in db.users
    modifies db`places, db`users
    ensures db.Valid()
    ensures var owner := if place.userId.None? then authenticated else place.userId;
            (owner.None? || owner.value !in old(db.users) ==>
               r == Err(UserNotFound) && db.places == old(db.places) && db.users == old(db.users)) &&
            (owner.Some? && owner.value in old(db.users) ==>
               var inserted := InsertedPlace(place, freshId, owner.value, lookup);
               r == Ok(inserted) &&
               db.places == old(db.places)[freshId := inserted] &&
               db.users == old(db.users)[owner.value := WithPlace(old(db.users)[owner.value], freshId)])
  {
    var owner := if place.userId.None? then authenticated else place.userId;
    if owner.None? || owner.value !in db.users {
      return Err(UserNotFound);
    }
    var u := db.users[owner.value];
    var inserted := InsertedPlace(place, freshId, owner.value, lookup);
    db.SavePlace(inserted);
    db.SaveUser(WithPlace(u, freshId));
    r := Ok(inserted);
  }

  /** After addPlace the place and its owner point at each other. */
  lemma AddedPlaceLinksOwner(users: map<Uuid, User>, place: Place, ownerId: Uuid, freshId: Uuid, lookup: Geocoder)
    requires ownerId in users
    ensures var users' := users[ownerId := WithPlace(users[ownerId], freshId)];
            InsertedPlace(place, freshId, ownerId, lookup).userId == Some(ownerId) &&
            freshId in users'[ownerId].places.value &&
            (forall k :: k in users && k != ownerId ==> users'[k] == users[k])
  {
    assert WithPlace(users[ownerId], freshId).places.value[|GetOrDefault(users[ownerId].places, [])|] == freshId;
  }

  // ---------------------------------------------------------------------
  // The place lists

  /** `ids.map(placeRepository::findById).flatMap(Optional::stream)`: the stored places among the ids, in order. */
  function FoundPlaces(places: map<Uuid, Place>, ids: seq<Uuid>): (r: seq<Place>)
    ensures forall p :: p in r ==> exists k :: k in ids && k in places && places[k] == p
    ensures forall k :: k in ids && k in places ==> places[k] in r
  {
    if ids == [] then []
    else (if ids[0] in places then [places[ids[0]]] else []) + FoundPlaces(places, ids[1..])
  }

  /** `findByZoneId` for each zone in turn, concatenated. */
  function ZonePlaces(byZone: Uuid -> seq<Place>, zones: seq<Uuid>): (r: seq<Place>)
    ensures forall p :: p in r <==> exists z :: z in zones && p in byZone(z)
  {
    if zones == [] then []
    else
      var rest := ZonePlaces(byZone, zones[1..]);
      assert forall p :: p in rest <==> exists z :: z in zones[1..] && p in byZone(z);
      assert forall z :: z in zones <==> z == zones[0] || z in zones[1..];
      byZone(zones[0]) + rest
  }

  /** `findByZoneId(z)` returns, in some order, the stored places of zone z. */
  ghost predicate ZoneQuery(places: map<Uuid, Place>, byZone: Uuid -> seq<Place>)
  {
    forall z: Uuid, p: Place :: p in byZone(z) <==> p in places.Values && p.zoneId == Some(z)
  }

  /** The places considered for a user: its own list, then the places of its zones. */
  function Candidates(places: map<Uuid, Place>, byZone: Uuid -> seq<Place>, user: User): seq<Place>
  {
    FoundPlaces(places, GetOrDefault(user.places, [])) + ZonePlaces(byZone, GetOrDefault(user.zones, []))
  }

  /** Every candidate is a stored place, and a stored place of the user's list or zones is a candidate. */
  lemma CandidatesFromStore(places: map<Uuid, Place>, byZone: Uuid -> seq<Place>, user: User)
    requires ZoneQuery(places, byZone)
    ensures forall p :: p in Candidates(places, byZone, user) ==> p in places.Values
    ensures forall k :: (k in places && (k in GetOrDefault(user.places, []) ||
                         (places[k].zoneId.Some? && places[k].zoneId.value in GetOrDefault(user.zones, [])))) ==>
              places[k] in Candidates(places, byZone, user)
  {
    var found := FoundPlaces(places, GetOrDefault(user.places, []));
    var zoned := ZonePlaces(byZone, GetOrDefault(user.zones, []));
    forall p | p in Candidates(places, byZone, user)
      ensures p in places.Values
    {
      if p in found {
        var k :| k in GetOrDefault(user.places, []) && k in places && places[k] == p;
      } else {
        assert p in zoned;
        var z :| z in GetOrDefault(user.zones, []) && p in byZone(z);
      }
    }
    forall k | k in places && places[k].zoneId.Some? && places[k].zoneId.value in GetOrDefault(user.zones, [])
      ensures places[k] in zoned
    {
      assert places[k] in places.Values;
      assert places[k] in byZone(places[k].zoneId.value);
    }
  }

  /** A `filter` whose predicate may throw: the first exception in stream order, or the kept elements. */
  function FilterOrFail(s: seq<Place>, keep: Place -> Result<bool>): (r: Result<seq<Place>>)
    ensures r.Ok? <==> forall p :: p in s ==> keep(p).Ok?
    ensures r.Ok? ==> forall p :: p in r.value <==> p in s && keep(p) == Ok(true)
    ensures r.Err? ==> exists p :: p in s && keep(p).Err? && r.error == keep(p).error
  {
    if s == [] then Ok([])
    else
      var head := keep(s[0]);
      if head.Err? then Err(head.error)
      else
        var rest := FilterOrFail(s[1..], keep);
        assert forall p :: p in s <==> p == s[0] || p in s[1..];
        if rest.Err? then rest
        else Ok((if head.value then [s[0]] else []) + rest.value)
  }

  /** The place listed under its nickname, if the user gave it one. */
  function Nicknamed(nicknames: map<Uuid, string>, p: Place): Place
    requires p.id.Some?
  {
    if p.id.value in nicknames then p.(name := Some(nicknames[p.id.value])) else p
  }

  /** The nickname step; `getId().toString()` throws on a place without an id. */
  function RenameAll(nicknames: map<Uuid, string>, s: seq<Place>): (r: Result<seq<Place>>)
    ensures r.Ok? <==> forall p :: p in s ==> p.id.Some?
    ensures r.Ok? ==> |r.value| == |s| && forall i :: 0 <= i < |s| ==> s[i].id.Some? && r.value[i] == Nicknamed(nicknames, s[i])
    ensures r.Err? ==> r.error == NullPointer
  {
    if s == [] then Ok([])
    else if s[0].id.None? then Err(NullPointer)
    else
      var rest := RenameAll(nicknames, s[1..]);
      assert forall p :: p in s <==> p == s[0] || p in s[1..];
      if rest.Err? then rest else Ok([Nicknamed(nicknames, s[0])] + rest.value)
  }

  /**
   * The shared pipeline of both lists as evidently intended: filter,
   * `distinct()` on the places as stored, then nicknames. The source's
   * stream interleaves the last two steps; see ListingAsWritten.
   */
  function Listing(user: User, candidates: seq<Place>, keep: Place -> Result<bool>): Result<seq<Place>>
  {
    var kept :- FilterOrFail(candidates, keep);
    RenameAll(GetOrDefault(user.placeNicknames, map[]), Distinct(kept))
  }

  /**
   * `distinct()` then the renaming `map`, as the stream interleaves them:
   * the fluent `name(...)` setter renames the very object the distinct
   * filter's hash set holds, so a later copy equal to an earlier kept
   * place is dropped only when renaming left that place unchanged. `seen`
   * holds the places kept so far, as they were before renaming (distinct
   * places are taken to hash differently).
   */
  function DistinctRenamedAsWritten(nicknames: map<Uuid, string>, s: seq<Place>, seen: set<Place>): (r: Result<seq<Place>>)
    ensures r.Err? <==> exists p :: p in s && p.id.None?
    ensures r.Err? ==> r.error == NullPointer
  {
    if s == [] then Ok([])
    else
      assert forall p :: p in s <==> p == s[0] || p in s[1..];
      if s[0].id.None? then Err(NullPointer)
      else if s[0] in seen && Nicknamed(nicknames, s[0]) == s[0] then DistinctRenamedAsWritten(nicknames, s[1..], seen)
      else
        var rest := DistinctRenamedAsWritten(nicknames, s[1..], seen + {s[0]});
        if rest.Err? then rest else Ok([Nicknamed(nicknames, s[0])] + rest.value)
  }

  /** The listing pipeline as written: filter, then the aliased `distinct()` and renaming. */
  function ListingAsWritten(user: User, candidates: seq<Place>, keep: Place -> Result<bool>): Result<seq<Place>>
  {
    var kept :- FilterOrFail(candidates, keep);
    DistinctRenamedAsWritten(GetOrDefault(user.placeNicknames, map[]), kept, {})
  }

  /** q is a place of s, not yet seen unrenamed, under its nickname. */
  predicate ListedAsWritten(nicknames: map<Uuid, string>, s: seq<Place>, seen: set<Place>, q: Place)
  {
    exists p :: p in s && p.id.Some? && !(p in seen && Nicknamed(nicknames, p) == p) && q == Nicknamed(nicknames, p)
  }

  /**
   * As written, the listing holds the same places as the corrected one:
   * every kept candidate under its nickname, and nothing else.
   */
  lemma {:induction false} DistinctRenamedAsWrittenMembers(nicknames: map<Uuid, string>, s: seq<Place>, seen: set<Place>)
    ensures var r := DistinctRenamedAsWritten(nicknames, s, seen);
            r.Ok? ==> forall q :: q in r.value <==> ListedAsWritten(nicknames, s, seen, q)
  {
    if s != [] && s[0].id.Some? {
      var r := DistinctRenamedAsWritten(nicknames, s, seen);
      var head := s[0];
      var drop := head in seen && Nicknamed(nicknames, head) == head;
      var seen' := if drop then seen else seen + {head};
      DistinctRenamedAsWrittenMembers(nicknames, s[1..], seen');
      var rest := DistinctRenamedAsWritten(nicknames, s[1..], seen');
      if r.Ok? {
        assert rest.Ok?;
        assert r.value == if drop then rest.value else [Nicknamed(nicknames, head)] + rest.value;
        forall q ensures q in r.value <==> ListedAsWritten(nicknames, s, seen, q) {
          assert q in rest.value <==> ListedAsWritten(nicknames, s[1..], seen', q);
          if ListedAsWritten(nicknames, s, seen, q) {
            var p :| p in s && p.id.Some? && !(p in seen && Nicknamed(nicknames, p) == p) && q == Nicknamed(nicknames, p);
            if p != head {
              assert p in s[1..];
              if !drop {
                assert !(p in seen' && Nicknamed(nicknames, p) == p);
              }
              assert ListedAsWritten(nicknames, s[1..], seen', q);
            }
          }
          if q in rest.value {
            var p :| p in s[1..] && p.id.Some? && !(p in seen' && Nicknamed(nicknames, p) == p) && q == Nicknamed(nicknames, p);
            assert p in s;
            assert ListedAsWritten(nicknames, s, seen, q);
          }
        }
      }
    }
  }

  /** Where no nickname changes a place, the as-written pipeline is the corrected one. */
  lemma {:induction false} DistinctRenamedAsWrittenUnrenamed(nicknames: map<Uuid, string>, s: seq<Place>, seen: set<Place>)
    requires forall p :: p in seen ==> p.id.Some?
    requires forall p :: p in s && p.id.Some? ==> Nicknamed(nicknames, p) == p
    ensures DistinctRenamedAsWritten(nicknames, s, seen) == RenameAll(nicknames, DistinctAfter(s, seen))
  {
    if s != [] {
      assert forall p :: p in s[1..] ==> p in s;
      if s[0].id.Some? {
        if s[0] in seen {
          DistinctRenamedAsWrittenUnrenamed(nicknames, s[1..], seen);
        } else {
          DistinctRenamedAsWrittenUnrenamed(nicknames, s[1..], seen + {s[0]});
          assert DistinctAfter(s, seen) == [s[0]] + DistinctAfter(s[1..], seen + {s[0]});
        }
      } else {
        assert DistinctAfter(s, seen) == [s[0]] + DistinctAfter(s[1..], seen + {s[0]});
      }
    }
  }

  /**
   * A place reached both through the user's list and through one of the
   * user's zones, kept by the filter and nicknamed by the user, is listed
   * twice as written and once by the corrected pipeline.
   */
  lemma ListingAsWrittenRepeats(keep: Place -> Result<bool>)
    requires keep(BlankPlace.(id := Some(1), userId := Some(1), name := Some("Fitness"))) == Ok(true)
    ensures var p := BlankPlace.(id := Some(1), userId := Some(1), name := Some("Fitness"));
            var user := BlankUser.(id := Some(1), placeNicknames := Some(map[1 := "Gym"]));
            var gym := p.(name := Some("Gym"));
            ListingAsWritten(user, [p, p], keep) == Ok([gym, gym]) &&
            Listing(user, [p, p], keep) == Ok([gym])
  {
    var p := BlankPlace.(id := Some(1), userId := Some(1), name := Some("Fitness"));
    var nick := map[1 := "Gym"];
    assert [p, p][1..] == [p] && [p][1..] == [] && [p][0] == p && [p, p][0] == p;
    assert keep(p) == Ok(true);
    assert FilterOrFail([], keep) == Ok([]);
    assert [p] + [] == [p];
    assert FilterOrFail([p], keep) == Ok([p]);
    var pp := [p, p];
    assert pp[1..] == [p] && pp[0] == p;
    assert FilterOrFail(pp[1..], keep) == Ok([p]);
    assert FilterOrFail(pp, keep) == Ok([pp[0]] + FilterOrFail(pp[1..], keep).value);
    assert pp == [p, p];
    assert Nicknamed(nick, p) != p;
    assert DistinctAfter([], {p}) == [];
    assert DistinctAfter([p], {p}) == [];
    var none: set<Place> := {};
    assert none + {p} == {p};
    assert DistinctAfter(pp, none) == [p] + DistinctAfter(pp[1..], none + {p});
    assert Distinct(pp) == [p];
    var gym := p.(name := Some("Gym"));
    assert Nicknamed(nick, p) == gym;
    assert RenameAll(nick, [p][1..]) == Ok([]) && [gym] + [] == [gym];
    assert RenameAll(nick, [p]) == Ok([gym]);
    assert {p} + {p} == {p};
    assert DistinctRenamedAsWritten(nick, [p][1..], {p} + {p}) == Ok([]);
    assert DistinctRenamedAsWritten(nick, [p], {p}) == Ok([gym]);
    assert DistinctRenamedAsWritten(nick, pp[1..], none + {p}) == Ok([gym]);
    assert DistinctRenamedAsWritten(nick, pp, none) == Ok([gym] + [gym]);
    var user := BlankUser.(id := Some(1), placeNicknames := Some(map[1 := "Gym"]));
    assert GetOrDefault(user.placeNicknames, map[]) == nick;
    assert Listing(user, pp, keep) == Ok([gym]);
    assert [gym] + [gym] == [gym, gym];
    assert [pp[0]] + [p] == pp;
    assert FilterOrFail(pp, keep) == Ok(pp);
    assert ListingAsWritten(user, pp, keep) == DistinctRenamedAsWritten(nick, pp, none);
  }

  /**
   * The listing as written and the corrected one fail alike and hold the
   * same places; they are equal where no nickname changes a candidate, so
   * only a renamed place can be repeated as written.
   */
  lemma ListingAsWrittenAgrees(user: User, candidates: seq<Place>, keep: Place -> Result<bool>)
    ensures ListingAsWritten(user, candidates, keep).Ok? <==> Listing(user, candidates, keep).Ok?
    ensures Listing(user, candidates, keep).Ok? ==>
              forall q :: q in ListingAsWritten(user, candidates, keep).value <==> q in Listing(user, candidates, keep).value
    ensures (forall p :: p in candidates && p.id.Some? ==> Nicknamed(GetOrDefault(user.placeNicknames, map[]), p) == p) ==>
              ListingAsWritten(user, candidates, keep) == Listing(user, candidates, keep)
  {
    var nick := GetOrDefault(user.placeNicknames, map[]);
    var filtered := FilterOrFail(candidates, keep);
    if filtered.Ok? {
      var kept := filtered.value;
      DistinctProperties(kept);
      DistinctRenamedAsWrittenMembers(nick, kept, {});
      assert ListingAsWritten(user, candidates, keep) == DistinctRenamedAsWritten(nick, kept, {});
      assert Listing(user, candidates, keep) == RenameAll(nick, Distinct(kept));
      if Listing(user, candidates, keep).Ok? {
        ListingCorrect(user, candidates, keep);
        var w := ListingAsWritten(user, candidates, keep).value;
        forall q ensures q in w <==> q in Listing(user, candidates, keep).value {
          if q in w {
            assert ListedAsWritten(nick, kept, {}, q);
            var p :| p in kept && p.id.Some? && q == Nicknamed(nick, p);
            assert p in candidates && keep(p) == Ok(true);
          }
        }
      }
      if forall p :: p in candidates && p.id.Some? ==> Nicknamed(nick, p) == p {
        DistinctRenamedAsWrittenUnrenamed(nick, kept, {});
      }
    }
  }

  /** The renamed places are the nicknamed versions of the places, one for one. */
  lemma RenameAllMembers(nicknames: map<Uuid, string>, s: seq<Place>)
    requires RenameAll(nicknames, s).Ok?
    ensures forall q :: q in RenameAll(nicknames, s).value <==> exists p :: p in s && p.id.Some? && q == Nicknamed(nicknames, p)
  {
    var r := RenameAll(nicknames, s).value;
    forall q ensures q in r <==> exists p :: p in s && p.id.Some? && q == Nicknamed(nicknames, p)
    {
      if q in r {
        var i :| 0 <= i < |r| && r[i] == q;
        assert s[i] in s;
      }
      if exists p :: p in s && p.id.Some? && q == Nicknamed(nicknames, p) {
        var p :| p in s && p.id.Some? && q == Nicknamed(nicknames, p);
        var i :| 0 <= i < |s| && s[i] == p;
        assert r[i] == q;
      }
    }
  }

  /** Renaming keeps the id, so places told apart by id stay apart. */
  lemma RenameAllDistinct(nicknames: map<Uuid, string>, s: seq<Place>)
    requires RenameAll(nicknames, s).Ok? && NoDuplicates(s)
    requires forall i, j :: 0 <= i < |s| && 0 <= j < |s| && s[i].id == s[j].id ==> s[i] == s[j]
    ensures NoDuplicates(RenameAll(nicknames, s).value)
  {
    var r := RenameAll(nicknames, s).value;
    forall i, j | 0 <= i < j < |r|
      ensures r[i] != r[j]
    {
      assert Nicknamed(nicknames, s[i]).id == s[i].id;
      assert Nicknamed(nicknames, s[j]).id == s[j].id;
    }
  }

  /** A listing fails exactly when the filter throws on a candidate or a kept candidate has no id. */
  lemma ListingSucceeds(user: User, candidates: seq<Place>, keep: Place -> Result<bool>)
    ensures Listing(user, candidates, keep).Ok? <==>
              (forall p :: p in candidates ==> keep(p).Ok?) &&
              (forall p :: p in candidates && keep(p) == Ok(true) ==> p.id.Some?)
  {
    var filtered := FilterOrFail(candidates, keep);
    if filtered.Ok? {
      DistinctProperties(filtered.value);
    }
  }

  /**
   * What a listing holds: exactly the kept candidates under their
   * nicknames; under the corrected de-duplication, each once when
   * candidates with the same id are the same place.
   */
  lemma ListingCorrect(user: User, candidates: seq<Place>, keep: Place -> Result<bool>)
    requires Listing(user, candidates, keep).Ok?
    ensures forall q :: q in Listing(user, candidates, keep).value <==>
              exists p :: p in candidates && keep(p) == Ok(true) && p.id.Some? &&
                          q == Nicknamed(GetOrDefault(user.placeNicknames, map[]), p)
    ensures (forall p, p' :: p in candidates && p' in candidates && p.id == p'.id ==> p == p') ==>
              NoDuplicates(Listing(user, candidates, keep).value)
  {
    var nick := GetOrDefault(user.placeNicknames, map[]);
    var kept := FilterOrFail(candidates, keep).value;
    var d := Distinct(kept);
    DistinctProperties(kept);
    assert Listing(user, candidates, keep) == RenameAll(nick, d);
    RenameAllMembers(nick, d);
    if forall p, p' :: p in candidates && p' in candidates && p.id == p'.id ==> p == p' {
      assert forall i :: 0 <= i < |d| ==> d[i] in candidates;
      RenameAllDistinct(nick, d);
    }
  }

  /** Stored candidates with the same id are the same place. */
  lemma StoredCandidatesDistinguished(db: Repositories, byZone: Uuid -> seq<Place>, user: User)
    requires db.Valid() && ZoneQuery(db.places, byZone)
    ensures forall p, p' :: (p in Candidates(db.places, byZone, user) && p' in Candidates(db.places, byZone, user) &&
                             p.id == p'.id) ==> p == p'
  {
    CandidatesFromStore(db.places, byZone, user);
    assert db.PlacesKeyed();
    forall p, p' | p in Candidates(db.places, byZone, user) && p' in Candidates(db.places, byZone, user) && p.id == p'.id
      ensures p == p'
    {
      var k :| k in db.places && db.places[k] == p;
      var k' :| k' in db.places && db.places[k'] == p';
    }
  }

  // getAllPlacesForUser

  /** ADMIN, DISPATCHER and DRIVER see every place of their lists and zones. */
  predicate SeesPrivatePlaces(user: User)
  {
    var roles := GetOrDefault(user.roles, []);
    Role.Admin in roles || Role.Dispatcher in roles || Role.Driver in roles
  }

  /** getAllPlacesForUser's filter: the owner test dereferences the owner id, the privacy test the flag. */
  function KeepForUser(user: User, p: Place): Result<bool>
  {
    if p.userId.None? then Err(NullPointer)
    else if user.id == p.userId || SeesPrivatePlaces(user) then Ok(true)
    else if p.isPrivate.None? then Err(NullPointer)
    else Ok(!p.isPrivate.value)
  }

  /** getAllPlacesForUser. */
  function AllPlacesForUser(places: map<Uuid, Place>, users: map<Uuid, User>, byZone: Uuid -> seq<Place>, userId: Uuid)
    : (r: Result<seq<Place>>)
    ensures userId !in users ==> r == Err(UserNotFound)
  {
    if userId !in users then Err(UserNotFound)
    else
      var user := users[userId];
      Listing(user, Candidates(places, byZone, user), p => KeepForUser(user, p))
  }

  /**
   * A listed place is a candidate owned by the user, seen by a staff role
   * or public, under its nickname; nothing else is listed, and under the
   * corrected de-duplication nothing twice.
   */
  lemma AllPlacesForUserCorrect(db: Repositories, byZone: Uuid -> seq<Place>, userId: Uuid)
    requires db.Valid() && ZoneQuery(db.places, byZone) && userId in db.users
    ensures var user := db.users[userId];
            var r := AllPlacesForUser(db.places, db.users, byZone, userId);
            r.Ok? ==> NoDuplicates(r.value) &&
                      forall q :: q in r.value <==>
                        exists p :: p in Candidates(db.places, byZone, user) && p.id.Some? &&
                                    (p.userId == Some(userId) || SeesPrivatePlaces(user) || p.isPrivate == Some(false)) &&
                                    q == Nicknamed(GetOrDefault(user.placeNicknames, map[]), p)
  {
    var user := db.users[userId];
    assert db.UsersKeyed();
    StoredCandidatesDistinguished(db, byZone, user);
    UserListingCorrect(user, userId, Candidates(db.places, byZone, user));
  }

  /** The listing for a user with the given id, over candidates no two of which share an id. */
  lemma UserListingCorrect(user: User, userId: Uuid, candidates: seq<Place>)
    requires user.id == Some(userId)
    requires forall p, p' :: p in candidates && p' in candidates && p.id == p'.id ==> p == p'
    ensures var r := Listing(user, candidates, p => KeepForUser(user, p));
            r.Ok? ==> NoDuplicates(r.value) &&
                      forall q :: q in r.value <==>
                        exists p :: p in candidates && p.id.Some? &&
                                    (p.userId == Some(userId) || SeesPrivatePlaces(user) || p.isPrivate == Some(false)) &&
                                    q == Nicknamed(GetOrDefault(user.placeNicknames, map[]), p)
  {
    var keep := p => KeepForUser(user, p);
    if Listing(user, candidates, keep).Ok? {
      ListingCorrect(user, candidates, keep);
      assert FilterOrFail(candidates, keep).Ok?;
      forall p | p in candidates
        ensures keep(p) == Ok(true) <==>
                  p.userId == Some(userId) || SeesPrivatePlaces(user) || p.isPrivate == Some(false)
      {
        assert keep(p).Ok?;
      }
    }
  }

  // getPlaces

  /**
   * getPlaces' filter. Java evaluates `roles.contains(ADMIN) || !isPrivate`
   * before looking at selfOnly, so a null role list or privacy flag throws
   * even when selfOnly is set.
   */
  function KeepForCaller(user: User, selfOnly: Option<bool>, p: Place): Result<bool>
  {
    if p.userId.None? then Err(NullPointer)
    else if user.id == p.userId then Ok(true)
    else if user.roles.None? then Err(NullPointer)
    else if Role.Admin in user.roles.value then Ok(!GetOrDefault(selfOnly, false))
    else if p.isPrivate.None? then Err(NullPointer)
    else Ok(!p.isPrivate.value && !GetOrDefault(selfOnly, false))
  }

  /** getPlaces for the authenticated user, if any. */
  function CallersPlaces(places: map<Uuid, Place>, byZone: Uuid -> seq<Place>, authenticated: Option<User>,
                         selfOnly: Option<bool>): (r: Result<seq<Place>>)
    ensures authenticated.None? ==> r == Err(NotAuthenticated)
  {
    if authenticated.None? then Err(NotAuthenticated)
    else
      var user := authenticated.value;
      Listing(user, Candidates(places, byZone, user), p => KeepForCaller(user, selfOnly, p))
  }

  /**
   * getPlaces lists the caller's own candidates always, and the others
   * only when selfOnly is not set and the caller is ADMIN or the place is
   * public.
   */
  lemma CallersPlacesCorrect(db: Repositories, byZone: Uuid -> seq<Place>, user: User, selfOnly: Option<bool>)
    requires db.Valid() && ZoneQuery(db.places, byZone)
    ensures var r := CallersPlaces(db.places, byZone, Some(user), selfOnly);
            r.Ok? ==> NoDuplicates(r.value) &&
                      forall q :: q in r.value <==>
                        exists p :: p in Candidates(db.places, byZone, user) && p.id.Some? && p.userId.Some? &&
                                    (p.userId == user.id ||
                                     ((Role.Admin in user.roles.value || p.isPrivate == Some(false)) &&
                                      selfOnly != Some(true))) &&
                                    q == Nicknamed(GetOrDefault(user.placeNicknames, map[]), p)
  {
    var keep := p => KeepForCaller(user, selfOnly, p);
    var r := CallersPlaces(db.places, byZone, Some(user), selfOnly);
    if r.Ok? {
      ListingSucceeds(user, Candidates(db.places, byZone, user), keep);
      ListingCorrect(user, Candidates(db.places, byZone, user), keep);
      StoredCandidatesDistinguished(db, byZone, user);
      forall p | p in Candidates(db.places, byZone, user)
        ensures keep(p) == Ok(true) <==>
                  p.userId.Some? && (p.userId == user.id ||
                  ((Role.Admin in user.roles.value || p.isPrivate == Some(false)) && selfOnly != Some(true)))
      {
        assert keep(p).Ok?;
      }
    }
  }

  /** With selfOnly set, the caller sees only places it owns. */
  lemma SelfOnlyListsOwnPlaces(places: map<Uuid, Place>, byZone: Uuid -> seq<Place>, user: User)
    ensures var r := CallersPlaces(places, byZone, Some(user), Some(true));
            r.Ok? ==> forall q :: q in r.value ==> q.userId.Some? && q.userId == user.id
  {
    var keep := p => KeepForCaller(user, Some(true), p);
    if CallersPlaces(places, byZone, Some(user), Some(true)).Ok? {
      ListingCorrect(user, Candidates(places, byZone, user), keep);
    }
  }

  // ---------------------------------------------------------------------
  // updatePlace

  /**
   * The stored place after an update, in the order of the source: the
   * fields up to the location are copied when non-null; a non-null address
   * different from the stored one replaces it and triggers geocoding of the
   * place as it is at that point; the remaining fields are copied after
   * that, so a zone in the update wins over the geocoded one. The owner is
   * never copied.
   */
  function MergePlace(existing: Place, update: Place, lookup: Geocoder): Place
  {
    var first := existing.(name := Pick(update.name, existing.name),
                           description := Pick(update.description, existing.description),
                           placeType := Pick(update.placeType, existing.placeType),
                           isPrivate := Pick(update.isPrivate, existing.isPrivate),
                           location := Pick(update.location, existing.location));
    var located := if update.address.Some? && update.address != existing.address
                   then Geocode(lookup, first.(address := update.address)) else first;
    located.(hoursOfOperation := Pick(update.hoursOfOperation, existing.hoursOfOperation),
             phoneNumber := Pick(update.phoneNumber, existing.phoneNumber),
             iconId := Pick(update.iconId, existing.iconId),
             imageId := Pick(update.imageId, existing.imageId),
             zoneId := Pick(update.zoneId, located.zoneId),
             groups := Pick(update.groups, existing.groups))
  }

  /** A place is re-geocoded only when the update brings a new address. */
  predicate NewAddress(existing: Place, update: Place)
  {
    update.address.Some? && update.address != existing.address
  }

  /**
   * What updatePlace keeps and what it takes: id and owner stay; without a
   * new address, location and zone are the update's when set and the
   * stored ones otherwise; with a new address that the lookup finds, the
   * found location replaces even a location the update brought, and the
   * zone is the update's, else the found one, else the stored one.
   */
  lemma MergePlaceLocation(existing: Place, update: Place, lookup: Geocoder)
    ensures var m := MergePlace(existing, update, lookup);
            m.id == existing.id && m.userId == existing.userId &&
            m.address == Pick(update.address, existing.address) &&
            (!NewAddress(existing, update) ==>
               m.location == Pick(update.location, existing.location) && m.zoneId == Pick(update.zoneId, existing.zoneId)) &&
            ((NewAddress(existing, update) && lookup(update.address.value).Some?) ==>
               m.location == Some(lookup(update.address.value).value.0) &&
               m.zoneId == Pick(update.zoneId, Pick(lookup(update.address.value).value.1, existing.zoneId))) &&
            ((NewAddress(existing, update) && lookup(update.address.value).None?) ==>
               m.location == Pick(update.location, existing.location) && m.zoneId == Pick(update.zoneId, existing.zoneId))
  {
  }

  /** The other fields follow the usual non-null copy. */
  lemma MergePlaceFields(existing: Place, update: Place, lookup: Geocoder)
    ensures var m := MergePlace(existing, update, lookup);
            m.name == Pick(update.name, existing.name) && m.description == Pick(update.description, existing.description) &&
            m.placeType == Pick(update.placeType, existing.placeType) &&
            m.isPrivate == Pick(update.isPrivate, existing.isPrivate) &&
            m.hoursOfOperation == Pick(update.hoursOfOperation, existing.hoursOfOperation) &&
            m.phoneNumber == Pick(update.phoneNumber, existing.phoneNumber) &&
            m.iconId == Pick(update.iconId, existing.iconId) && m.imageId == Pick(update.imageId, existing.imageId) &&
            m.groups == Pick(update.groups, existing.groups)
  {
  }

  /** Updating a place with itself, one field changed, changes just that field. */
  lemma MergePlaceSelf(p: Place, iconId: Uuid, lookup: Geocoder)
    ensures MergePlace(p, p.(iconId := Some(iconId)), lookup) == p.(iconId := Some(iconId))
  {
  }

  /** updatePlace: a place without an id is refused by `findById(null)`. */
  method UpdatePlace(db: Repositories, update: Place, lookup: Geocoder) returns (r: Result<Place>)
    requires db.Valid()
    modifies db`places
    ensures db.Valid()
    ensures update.id.None? ==> r == Err(IllegalArgument)
    ensures (update.id.Some? && update.id.value !in old(db.places)) ==> r == Err(PlaceNotFound)
    ensures r.Err? ==> db.places == old(db.places)
    ensures (update.id.Some? && update.id.value in old(db.places)) ==>
              var merged := MergePlace(old(db.places)[update.id.value], update, lookup);
              r == Ok(merged) && db.places == old(db.places)[update.id.value := merged]
  {
    if update.id.None? {
      return Err(IllegalArgument);
    }
    if update.id.value !in db.places {
      return Err(PlaceNotFound);
    }
    var merged := MergePlace(db.places[update.id.value], update, lookup);
    assert db.PlacesKeyed();
    db.SavePlace(merged);
    r := Ok(merged);
  }

  // ---------------------------------------------------------------------
  // setPlaceIcon

  predicate IsPlaceIcon(blobs: map<Uuid, DataBlob>, iconId: Uuid)
  {
    iconId in blobs && blobs[iconId].dataType == Some(PlaceIcon)
  }

  /** The blobs after setPlaceIcon as written: the old icon drops the place, then the new one gains it. */
  function IconMovedAsWritten(blobs: map<Uuid, DataBlob>, oldIcon: Option<Uuid>, iconId: Uuid, placeId: Uuid)
    : Result<map<Uuid, DataBlob>>
  {
    BlobsWithReference(BlobsWithoutReference(blobs, oldIcon, placeId), Some(iconId), placeId)
  }

  /**
   * Setting the icon a place already has, when the place is that icon's
   * only user, deletes the icon: the removal empties its references and
   * the addition then finds no blob.
   */
  lemma ResettingSoleIconDeletesIt(blobs: map<Uuid, DataBlob>, iconId: Uuid, placeId: Uuid)
    requires IsPlaceIcon(blobs, iconId) && blobs[iconId].references == Some([placeId])
    ensures IconMovedAsWritten(blobs, Some(iconId), iconId, placeId) == Ok(blobs - {iconId})
    ensures iconId !in IconMovedAsWritten(blobs, Some(iconId), iconId, placeId).value
  {
    assert Unreferenced(blobs[iconId], placeId).None?;
  }

  /** The blobs after setPlaceIcon, leaving the old icon alone when it is the new one. */
  function IconMoved(blobs: map<Uuid, DataBlob>, oldIcon: Option<Uuid>, iconId: Uuid, placeId: Uuid)
    : Result<map<Uuid, DataBlob>>
  {
    if oldIcon == Some(iconId) then BlobsWithReference(blobs, Some(iconId), placeId)
    else IconMovedAsWritten(blobs, oldIcon, iconId, placeId)
  }

  /** After a successful icon move the new icon is stored and references the place. */
  lemma IconMovedKeepsIcon(blobs: map<Uuid, DataBlob>, oldIcon: Option<Uuid>, iconId: Uuid, placeId: Uuid)
    requires IsPlaceIcon(blobs, iconId)
    ensures var r := IconMoved(blobs, oldIcon, iconId, placeId);
            r.Ok? ==> iconId in r.value && placeId in References(r.value[iconId])
  {
    var removed := BlobsWithoutReference(blobs, oldIcon, placeId);
    if oldIcon != Some(iconId) {
      assert iconId in removed && removed[iconId] == blobs[iconId];
    }
  }

  /**
   * setPlaceIcon: the place must exist and the blob must be a place icon.
   * The icon references move to the new icon, then the place is updated
   * with the new icon id. A blob with no reference list makes the addition
   * fail after the old icon has already dropped the place.
   */
  method SetPlaceIcon(db: Repositories, placeId: Uuid, iconId: Uuid, lookup: Geocoder) returns (r: Result<Place>)
    requires db.Valid()
    modifies db`places, db`blobs
    ensures db.Valid()
    ensures placeId !in old(db.places) ==> r == Err(PlaceNotFound)
    ensures (placeId in old(db.places) && !IsPlaceIcon(old(db.blobs), iconId)) ==> r == Err(IconNotFound)
    ensures (placeId !in old(db.places) || !IsPlaceIcon(old(db.blobs), iconId)) ==>
              db.places == old(db.places) && db.blobs == old(db.blobs)
    ensures (placeId in old(db.places) && IsPlaceIcon(old(db.blobs), iconId)) ==>
              var moved := IconMoved(old(db.blobs), old(db.places)[placeId].iconId, iconId, placeId);
              var oldIcon := old(db.places)[placeId].iconId;
              (moved.Err? ==> r == Err(moved.error) && db.places == old(db.places) &&
                              db.blobs == (if oldIcon == Some(iconId) then old(db.blobs)
                                           else BlobsWithoutReference(old(db.blobs), oldIcon, placeId))) &&
              (moved.Ok? ==> db.blobs == moved.value &&
                             iconId in db.blobs && placeId in References(db.blobs[iconId]) &&
                             r == Ok(old(db.places)[placeId].(iconId := Some(iconId))) &&
                             db.places == old(db.places)[placeId := old(db.places)[placeId].(iconId := Some(iconId))])
  {
    if placeId !in db.places {
      return Err(PlaceNotFound);
    }
    if !IsPlaceIcon(db.blobs, iconId) {
      return Err(IconNotFound);
    }
    var place := db.places[placeId];
    ghost var moved := IconMoved(db.blobs, place.iconId, iconId, placeId);
    IconMovedKeepsIcon(db.blobs, place.iconId, iconId, placeId);
    if place.iconId != Some(iconId) {
      RemoveReference(db, place.iconId, placeId);
    }
    var added := AddReference(db, Some(iconId), placeId);
    if added.Err? {
      return Err(added.error);
    }
    assert db.PlacesKeyed();
    MergePlaceSelf(place, iconId, lookup);
    r := UpdatePlace(db, place.(iconId := Some(iconId)), lookup);
  }
}

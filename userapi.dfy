// UserApiImpl: what a caller sees of a user, the checks on creating a
// user, the field-by-field update with its guard against granting roles,
// and the favourite-places toggle.
module UserApi {
  import opened Common
  import opened Model
  import opened Store
  import opened UserUtils
  import opened DataRepositoryUtils

  const UserNotFound := NotFound("User not found")
  const UserExists := AlreadyExists("User already exists")

  // ---------------------------------------------------------------------
  // sanitizeOutput

  /** A field that is shown is shown as it is. */
  predicate ShownAsIs<T(==)>(shown: Option<T>, full: Option<T>)
  {
    shown.None? || shown == full
  }

  /** Every field `a` shows, `b` shows with the same value: `a` reveals no more than `b`. */
  predicate RevealsNoMore(a: User, b: User)
  {
    ShownAsIs(a.id, b.id) && ShownAsIs(a.userName, b.userName) && ShownAsIs(a.password, b.password) &&
    ShownAsIs(a.firstName, b.firstName) && ShownAsIs(a.lastName, b.lastName) && ShownAsIs(a.email, b.email) &&
    ShownAsIs(a.address, b.address) && ShownAsIs(a.primaryPhone, b.primaryPhone) &&
    ShownAsIs(a.otherPhone, b.otherPhone) && ShownAsIs(a.notificationType, b.notificationType) &&
    ShownAsIs(a.groups, b.groups) && ShownAsIs(a.roles, b.roles) && ShownAsIs(a.partnerId, b.partnerId) &&
    ShownAsIs(a.active, b.active) && ShownAsIs(a.zones, b.zones) && ShownAsIs(a.places, b.places) &&
    ShownAsIs(a.placeNicknames, b.placeNicknames) && ShownAsIs(a.favoritePlaces, b.favoritePlaces) &&
    ShownAsIs(a.resetPassword, b.resetPassword) && ShownAsIs(a.created, b.created)
  }

  /**
   * sanitizeOutput: the user as a viewer with the given roles sees it. The
   * password is never shown and nothing is invented: every field shown is
   * the user's own.
   */
  function Sanitized(viewerRoles: seq<Role>, u: User, isSelf: bool): (r: User)
    ensures r.password.None?
    ensures RevealsNoMore(r, u)
  {
    var noPassword := u.(password := None);
    if isSelf || Role.Admin in viewerRoles then noPassword
    else
      var minimal := noPassword.(created := None, email := None, places := None, placeNicknames := None,
                                 favoritePlaces := None, userName := None);
      if Role.Dispatcher in viewerRoles || Role.Driver in viewerRoles then minimal
      else minimal.(active := None, zones := None, roles := None, groups := None, primaryPhone := None,
                    otherPhone := None)
  }

  /**
   * Which fields each viewer sees: the user itself and an ADMIN see all but
   * the password; any other viewer loses the account details; a viewer who
   * is neither DISPATCHER nor DRIVER loses the contact and membership
   * details as well. The id, names, address, notification type, partner
   * and reset request are shown to every viewer.
   */
  lemma SanitizedFields(viewerRoles: seq<Role>, u: User, isSelf: bool)
    ensures var r := Sanitized(viewerRoles, u, isSelf);
            isSelf || Role.Admin in viewerRoles ==> r == u.(password := None)
    ensures var r := Sanitized(viewerRoles, u, isSelf);
            r.id == u.id && r.firstName == u.firstName && r.lastName == u.lastName && r.address == u.address &&
            r.notificationType == u.notificationType && r.partnerId == u.partnerId && r.resetPassword == u.resetPassword
    ensures var r := Sanitized(viewerRoles, u, isSelf);
            !isSelf && Role.Admin !in viewerRoles ==>
              r.created.None? && r.email.None? && r.places.None? && r.placeNicknames.None? &&
              r.favoritePlaces.None? && r.userName.None?
    ensures var r := Sanitized(viewerRoles, u, isSelf);
            var contact := r.active == u.active && r.zones == u.zones && r.roles == u.roles && r.groups == u.groups &&
                           r.primaryPhone == u.primaryPhone && r.otherPhone == u.otherPhone;
            var cleared := r.active.None? && r.zones.None? && r.roles.None? && r.groups.None? &&
                           r.primaryPhone.None? && r.otherPhone.None?;
            !isSelf && Role.Admin !in viewerRoles ==>
              (Role.Dispatcher in viewerRoles || Role.Driver in viewerRoles ==> contact) &&
              (Role.Dispatcher !in viewerRoles && Role.Driver !in viewerRoles ==> cleared)
  {
  }

  /**
   * A viewer with more roles sees at least as much, the user itself sees
   * at least as much as anyone, and sanitizing twice changes nothing.
   */
  lemma SanitizedMonotone(fewer: seq<Role>, more: seq<Role>, u: User, isSelf: bool)
    requires forall r :: r in fewer ==> r in more
    ensures RevealsNoMore(Sanitized(fewer, u, isSelf), Sanitized(more, u, isSelf))
    ensures RevealsNoMore(Sanitized(more, u, false), Sanitized(fewer, u, true))
    ensures Sanitized(more, Sanitized(more, u, isSelf), isSelf) == Sanitized(more, u, isSelf)
  {
  }

  // ---------------------------------------------------------------------
  // addUser

  /**
   * `userRepository.findByUserName(name) != null`. A derived query on a
   * null name matches a stored user without one.
   */
  predicate NameTaken(users: map<Uuid, User>, name: Option<string>)
  {
    exists k :: k in users && users[k].userName == name
  }

  lemma NameTakenIsUserAlreadyExists(users: map<Uuid, User>, name: string)
    ensures NameTaken(users, Some(name)) <==> UserAlreadyExists(users, name)
  {
  }

  /** The user addUser inserts: a fresh id, the encoded password and the creation time. */
  function NewUser(user: User, encode: string -> string, freshId: Uuid, now: int): (r: User)
    requires user.password.Some?
    ensures r.id == Some(freshId) && r.created == Some(now) && r.password == Some(encode(user.password.value))
    ensures r.(id := user.id, password := user.password, created := user.created) == user
  {
    user.(id := Some(freshId), password := Some(encode(user.password.value)), created := Some(now))
  }

  /**
   * addUser: a name some stored user has already is refused, then any
   * ADMIN role; the password encoder refuses a null password. Otherwise
   * the user is inserted and returned without its password.
   */
  method AddUser(db: Repositories, user: User, encode: string -> string, freshId: Uuid, now: int)
    returns (r: Result<User>)
    requires db.Valid() && freshId !in db.users
    modifies db`users
    ensures db.Valid()
    ensures NameTaken(old(db.users), user.userName) ==> r == Err(UserExists)
    ensures !NameTaken(old(db.users), user.userName) && Role.Admin in GetOrDefault(user.roles, []) ==>
              r == Err(AccessDenied)
    ensures (!NameTaken(old(db.users), user.userName) && Role.Admin !in GetOrDefault(user.roles, []) &&
             user.password.None?) ==> r == Err(IllegalArgument)
    ensures (!NameTaken(old(db.users), user.userName) && Role.Admin !in GetOrDefault(user.roles, []) &&
             user.password.Some?) ==> r.Ok?
    ensures r.Err? ==> db.users == old(db.users)
    ensures r.Ok? ==> user.password.Some? &&
                      db.users == old(db.users)[freshId := NewUser(user, encode, freshId, now)] &&
                      r.value == Sanitized([], NewUser(user, encode, freshId, now), true)
  {
    if exists k :: k in db.users && db.users[k].userName == user.userName {
      return Err(UserExists);
    }
    if Role.Admin in GetOrDefault(user.roles, []) {
      return Err(AccessDenied);
    }
    if user.password.None? {
      return Err(IllegalArgument);
    }
    var created := NewUser(user, encode, freshId, now);
    db.SaveUser(created);
    r := Ok(Sanitized([], created, true));
  }

  // ---------------------------------------------------------------------
  // updateUser

  /** The largest ordinal among the roles, or `default` for none (`mapToInt(Role::ordinal).max().orElse(...)`). */
  function MaxOrdinal(roles: seq<Role>, ordinal: Role -> nat, default: nat): (m: nat)
    ensures roles == [] ==> m == default
    ensures forall r :: r in roles ==> ordinal(r) <= m
    ensures roles != [] ==> exists r :: r in roles && ordinal(r) == m
  {
    if roles == [] then default
    else if |roles| == 1 then ordinal(roles[0])
    else
      var rest := MaxOrdinal(roles[1..], ordinal, default);
      assert forall r :: r in roles ==> r == roles[0] || r in roles[1..];
      if ordinal(roles[0]) >= rest then ordinal(roles[0]) else rest
  }

  /** The highest ordinal a caller may assign: its own highest, default DRIVER, and never above DRIVER. */
  function RoleCeiling(callerRoles: seq<Role>, ordinal: Role -> nat): nat
  {
    var own := MaxOrdinal(callerRoles, ordinal, ordinal(Role.Driver));
    if own <= ordinal(Role.Driver) then own else ordinal(Role.Driver)
  }

  /** The check of updateUser: the new roles' highest ordinal (default RIDER) is within the ceiling. */
  predicate RoleChangeAllowed(callerRoles: seq<Role>, newRoles: seq<Role>, ordinal: Role -> nat)
  {
    MaxOrdinal(newRoles, ordinal, ordinal(Role.Rider)) <= RoleCeiling(callerRoles, ordinal)
  }

  /**
   * The guard, role by role: a change is allowed exactly when every new
   * role's ordinal is within the DRIVER ordinal and within some role the
   * caller holds (any ordinal up to DRIVER for a caller without roles).
   * An empty role list is judged as if it held RIDER alone. Ordinals
   * follow the declaration order of the API's Role enumeration, which is
   * therefore a parameter.
   */
  lemma RoleChangeAllowedCorrect(callerRoles: seq<Role>, newRoles: seq<Role>, ordinal: Role -> nat)
    ensures newRoles != [] ==>
              (RoleChangeAllowed(callerRoles, newRoles, ordinal) <==>
                 forall r :: r in newRoles ==>
                   ordinal(r) <= ordinal(Role.Driver) &&
                   (callerRoles == [] || exists c :: c in callerRoles && ordinal(r) <= ordinal(c)))
    ensures newRoles == [] ==>
              (RoleChangeAllowed(callerRoles, newRoles, ordinal) <==>
                 ordinal(Role.Rider) <= ordinal(Role.Driver) &&
                 (callerRoles == [] || exists c :: c in callerRoles && ordinal(Role.Rider) <= ordinal(c)))
  {
    var ceiling := RoleCeiling(callerRoles, ordinal);
    var top := MaxOrdinal(newRoles, ordinal, ordinal(Role.Rider));
    if callerRoles != [] {
      var own := MaxOrdinal(callerRoles, ordinal, ordinal(Role.Driver));
      var c :| c in callerRoles && ordinal(c) == own;
      if newRoles != [] && forall r :: r in newRoles ==>
           ordinal(r) <= ordinal(Role.Driver) && exists c :: c in callerRoles && ordinal(r) <= ordinal(c) {
        var t :| t in newRoles && ordinal(t) == top;
        var c' :| c' in callerRoles && ordinal(t) <= ordinal(c');
        assert ordinal(c') <= own;
      }
    }
  }

  /** Whatever the caller's roles, a role ranked above DRIVER is never granted. */
  lemma NoGrantAboveDriver(callerRoles: seq<Role>, newRoles: seq<Role>, ordinal: Role -> nat, role: Role)
    requires RoleChangeAllowed(callerRoles, newRoles, ordinal)
    requires ordinal(role) > ordinal(Role.Driver)
    ensures role !in newRoles
  {
  }

  function RoleSet(roles: seq<Role>): set<Role>
  {
    set r | r in roles
  }

  /** The user-name change updateUser makes: a non-null name different from the stored one. */
  predicate NameChanged(existing: User, update: User)
  {
    update.userName.Some? && update.userName != existing.userName
  }

  /** The role change updateUser makes: non-null roles that differ from the stored ones as sets. */
  predicate RolesChanged(existing: User, update: User)
  {
    update.roles.Some? && RoleSet(update.roles.value) != RoleSet(GetOrDefault(existing.roles, []))
  }

  /** The setter chain of updateUser; roles are taken from `update` only when `replaceRoles`. */
  function MergeUser(existing: User, update: User, replaceRoles: bool): User
  {
    existing.(
      userName := Pick(update.userName, existing.userName),
      firstName := Pick(update.firstName, existing.firstName),
      lastName := Pick(update.lastName, existing.lastName),
      email := Pick(update.email, existing.email),
      address := Pick(update.address, existing.address),
      primaryPhone := Pick(update.primaryPhone, existing.primaryPhone),
      otherPhone := Pick(update.otherPhone, existing.otherPhone),
      notificationType := Pick(update.notificationType, existing.notificationType),
      groups := Pick(update.groups, existing.groups),
      roles := if replaceRoles then update.roles else existing.roles,
      partnerId := Pick(update.partnerId, existing.partnerId),
      active := Pick(update.active, existing.active),
      zones := Pick(update.zones, existing.zones),
      places := Pick(update.places, existing.places),
      placeNicknames := Pick(update.placeNicknames, existing.placeNicknames),
      resetPassword := Pick(update.resetPassword, existing.resetPassword))
  }

  /**
   * The merge never touches the id, the password, the creation time or
   * the favourite places; an update with no fields set changes nothing; a
   * second identical update changes nothing more; every field set in the
   * update is stored; and when the update carries roles the stored roles
   * end up equal to them as a set, whether or not they were replaced.
   */
  lemma MergeUserProperties(existing: User, update: User)
    ensures var m := MergeUser(existing, update, RolesChanged(existing, update));
            m.id == existing.id && m.password == existing.password && m.created == existing.created &&
            m.favoritePlaces == existing.favoritePlaces
    ensures MergeUser(existing, BlankUser, RolesChanged(existing, BlankUser)) == existing
    ensures var m := MergeUser(existing, update, RolesChanged(existing, update));
            MergeUser(m, update, RolesChanged(m, update)) == m
    ensures var m := MergeUser(existing, update, RolesChanged(existing, update));
            (update.userName.Some? ==> m.userName == update.userName) &&
            (update.email.Some? ==> m.email == update.email) &&
            (update.zones.Some? ==> m.zones == update.zones) &&
            (update.resetPassword.Some? ==> m.resetPassword == update.resetPassword)
    ensures var m := MergeUser(existing, update, RolesChanged(existing, update));
            update.roles.Some? ==> RoleSet(GetOrDefault(m.roles, [])) == RoleSet(update.roles.value)
    ensures (!NameChanged(existing, update) && !RolesChanged(existing, update) &&
             update.(favoritePlaces := None) == existing.(favoritePlaces := None))
            ==> MergeUser(existing, update, false) == existing
  {
    var m := MergeUser(existing, update, RolesChanged(existing, update));
    if update.roles.Some? && !RolesChanged(existing, update) && existing.roles.None? {
      assert RoleSet(GetOrDefault(m.roles, [])) == RoleSet([]);
    }
  }

  /**
   * updateUser: a null id is refused by the lookup and an unknown id is
   * "User not found". A new user name some stored user has is refused; a
   * change of the role set beyond the caller's ceiling is refused. Otherwise
   * the merged user is saved and the response is the *request*, sanitized
   * for the caller, who is "self" when its name is the merged user's.
   * `revoked` says whether the user's tokens were revoked, which happens
   * on a name change (even when the role check then fails) and on a role
   * change.
   */
  method UpdateUser(db: Repositories, update: User, callerRoles: seq<Role>, callerName: Option<string>,
                    ordinal: Role -> nat)
    returns (r: Result<User>, revoked: bool)
    requires db.Valid()
    modifies db`users
    ensures db.Valid()
    ensures update.id.None? ==> r == Err(IllegalArgument) && !revoked && db.users == old(db.users)
    ensures update.id.Some? && update.id.value !in old(db.users) ==>
              r == Err(UserNotFound) && !revoked && db.users == old(db.users)
    ensures update.id.Some? && update.id.value in old(db.users) ==>
              var existing := old(db.users)[update.id.value];
              var nameRefused := NameChanged(existing, update) && NameTaken(old(db.users), update.userName);
              var roleRefused := RolesChanged(existing, update) &&
                                 !RoleChangeAllowed(callerRoles, update.roles.value, ordinal);
              var merged := MergeUser(existing, update, RolesChanged(existing, update));
              (nameRefused ==> r == Err(UserExists) && !revoked && db.users == old(db.users)) &&
              (!nameRefused && roleRefused ==>
                 r == Err(AccessDenied) && revoked == NameChanged(existing, update) && db.users == old(db.users)) &&
              (!nameRefused && !roleRefused ==>
                 db.users == old(db.users)[update.id.value := merged] &&
                 r == Ok(Sanitized(callerRoles, update, merged.userName == callerName)) &&
                 revoked == (NameChanged(existing, update) || RolesChanged(existing, update)))
  {
    revoked := false;
    if update.id.None? {
      return Err(IllegalArgument), false;
    }
    var id := update.id.value;
    if id !in db.users {
      return Err(UserNotFound), false;
    }
    var existing := db.users[id];
    if NameChanged(existing, update) {
      if exists k :: k in db.users && db.users[k].userName == update.userName {
        return Err(UserExists), false;
      }
      revoked := true;
    }
    var replaceRoles := RolesChanged(existing, update);
    if replaceRoles {
      if !RoleChangeAllowed(callerRoles, update.roles.value, ordinal) {
        return Err(AccessDenied), revoked;
      }
      revoked := true;
    }
    var merged := MergeUser(existing, update, replaceRoles);
    db.SaveUser(merged);
    r := Ok(Sanitized(callerRoles, update, merged.userName == callerName));
  }

  // ---------------------------------------------------------------------
  // setFavoritePlaceForUser

  /** The favourite places after the toggle: added when absent, the first occurrence removed when present. */
  function FavoritesAfter(favorites: seq<Uuid>, placeId: Uuid, favorite: bool): seq<Uuid>
  {
    if favorite && placeId !in favorites then favorites + [placeId]
    else if !favorite && placeId in favorites then RemoveFirst(favorites, placeId)
    else favorites
  }

  lemma RemoveFirstWithin(s: seq<Uuid>, x: Uuid, y: Uuid)
    requires y in RemoveFirst(s, x)
    ensures y in s
  {
    assert multiset(RemoveFirst(s, x))[y] > 0;
  }

  lemma {:induction false} RemoveFirstNoDuplicates(s: seq<Uuid>, x: Uuid)
    requires NoDuplicates(s)
    ensures NoDuplicates(RemoveFirst(s, x)) && x !in RemoveFirst(s, x)
  {
    if s != [] {
      var tail := s[1..];
      assert NoDuplicates(tail) by {
        forall i, j | 0 <= i < j < |tail| ensures tail[i] != tail[j] {
          assert tail[i] == s[i + 1] && tail[j] == s[j + 1];
        }
      }
      assert s[0] !in tail by {
        forall k | 0 <= k < |tail| ensures tail[k] != s[0] {
          assert tail[k] == s[k + 1];
        }
      }
      if s[0] != x {
        RemoveFirstNoDuplicates(tail, x);
        var rest := RemoveFirst(tail, x);
        assert RemoveFirst(s, x) == [s[0]] + rest;
        assert s[0] !in rest by {
          if s[0] in rest {
            RemoveFirstWithin(tail, x, s[0]);
          }
        }
        var r := [s[0]] + rest;
        forall i, j | 0 <= i < j < |r| ensures r[i] != r[j] {
          if i == 0 {
            assert r[j] == rest[j - 1];
          } else {
            assert r[i] == rest[i - 1] && r[j] == rest[j - 1];
          }
        }
      } else {
        assert RemoveFirst(s, x) == tail;
      }
    }
  }

  /**
   * The toggle makes the place a favourite exactly as asked (given a list
   * without repeats), never touches any other place, never introduces a
   * repeat, and changes nothing when the list already agrees.
   */
  lemma FavoritesAfterProperties(favorites: seq<Uuid>, placeId: Uuid, favorite: bool)
    ensures favorite ==> placeId in FavoritesAfter(favorites, placeId, favorite)
    ensures NoDuplicates(favorites) ==>
              NoDuplicates(FavoritesAfter(favorites, placeId, favorite)) &&
              (placeId in FavoritesAfter(favorites, placeId, favorite) <==> favorite)
    ensures forall q :: q != placeId ==> (q in FavoritesAfter(favorites, placeId, favorite) <==> q in favorites)
    ensures (placeId in favorites <==> favorite) ==> FavoritesAfter(favorites, placeId, favorite) == favorites
  {
    var r := FavoritesAfter(favorites, placeId, favorite);
    if !favorite && placeId in favorites {
      forall q | q != placeId ensures q in r <==> q in favorites {
        assert multiset(r)[q] == multiset(favorites)[q];
      }
      if NoDuplicates(favorites) {
        RemoveFirstNoDuplicates(favorites, placeId);
      }
    }
    if favorite && placeId !in favorites && NoDuplicates(favorites) {
      forall i, j | 0 <= i < j < |r| ensures r[i] != r[j] {
        if j == |favorites| {
          assert r[i] == favorites[i];
        }
      }
    }
  }

  /** The user object setFavoritePlaceForUser hands to updateUser: the stored user with the toggled list. */
  function FavoriteRequest(stored: User, placeId: Uuid, favorite: bool): User
  {
    var favorites := GetOrDefault(stored.favoritePlaces, []);
    if favorite == (placeId in favorites) then stored
    else stored.(favoritePlaces := Some(FavoritesAfter(favorites, placeId, favorite)))
  }

  /**
   * As written, setFavoritePlaceForUser relies on updateUser, whose merge
   * never copies the favourite places: what it saves is the stored user
   * unchanged, although a place newly marked favourite is in the list the
   * response shows.
   */
  lemma FavoriteNotPersisted(stored: User, placeId: Uuid, favorite: bool)
    ensures var request := FavoriteRequest(stored, placeId, favorite);
            !NameChanged(stored, request) && !RolesChanged(stored, request) &&
            MergeUser(stored, request, RolesChanged(stored, request)) == stored
    ensures var request := FavoriteRequest(stored, placeId, favorite);
            favorite && placeId !in GetOrDefault(stored.favoritePlaces, []) ==>
              placeId in request.favoritePlaces.value &&
              placeId !in GetOrDefault(MergeUser(stored, request, RolesChanged(stored, request)).favoritePlaces, [])
  {
    var request := FavoriteRequest(stored, placeId, favorite);
    MergeUserProperties(stored, request);
    FavoritesAfterProperties(GetOrDefault(stored.favoritePlaces, []), placeId, favorite);
  }

  /**
   * setFavoritePlaceForUser as intended: the toggled list is stored (the
   * update otherwise changes nothing, as FavoriteNotPersisted shows) and
   * the response is the toggled user, sanitized for the caller. A null id
   * is refused by the lookup, an unknown one is "User not found".
   */
  method SetFavoritePlaceForUser(db: Repositories, userId: Option<Uuid>, placeId: Uuid, favorite: bool,
                                 callerRoles: seq<Role>, callerName: Option<string>)
    returns (r: Result<User>)
    requires db.Valid()
    modifies db`users
    ensures db.Valid()
    ensures userId.None? ==> r == Err(IllegalArgument) && db.users == old(db.users)
    ensures userId.Some? && userId.value !in old(db.users) ==> r == Err(UserNotFound) && db.users == old(db.users)
    ensures userId.Some? && userId.value in old(db.users) ==>
              var stored := old(db.users)[userId.value];
              var request := FavoriteRequest(stored, placeId, favorite);
              db.users == old(db.users)[userId.value := request] &&
              r == Ok(Sanitized(callerRoles, request, stored.userName == callerName)) &&
              (request.favoritePlaces.Some? ==>
                 request.favoritePlaces.value == FavoritesAfter(GetOrDefault(stored.favoritePlaces, []), placeId, favorite))
  {
    if userId.None? {
      return Err(IllegalArgument);
    }
    var id := userId.value;
    if id !in db.users {
      return Err(UserNotFound);
    }
    var stored := db.users[id];
    var request := FavoriteRequest(stored, placeId, favorite);
    FavoritesAfterProperties(GetOrDefault(stored.favoritePlaces, []), placeId, favorite);
    if request != stored {
      db.SaveUser(request);
    }
    r := Ok(Sanitized(callerRoles, request, stored.userName == callerName));
  }
}

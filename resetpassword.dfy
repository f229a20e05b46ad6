// The password-reset flow: a reset request stores a one-time key with an
// expiry on the user and mails the key together with the user name in
// Base64; a password change presents both back and succeeds once, before
// the expiry.
module ResetPasswordApi {
  import opened Common
  import opened Model
  import opened Store
  import Base64
  import Utf8
  import UserApi

  const UserNameNotFound: Error := NotFound("Username not found")
  const ResetNotFound: Error := NotFound("Username or valid password reset request not found")

  /** The fields of the "password-reset" mail template that depend on the user. */
  datatype ResetEmail = ResetEmail(to: string, recipientName: string, userName: string, resetKey: Uuid)

  // ---------------------------------------------------------------------
  // Looking a user up by name

  /** The users `findByUserName(name)` matches; a null name matches the users without one. */
  function UsersNamed(users: map<Uuid, User>, name: Option<string>): (ks: set<Uuid>)
    ensures forall k :: k in ks <==> k in users && users[k].userName == name
  {
    set k | k in users && users[k].userName == name
  }

  /** addUser's duplicate test and the lookup here agree. */
  lemma UsersNamedIsNameTaken(users: map<Uuid, User>, name: Option<string>)
    ensures UsersNamed(users, name) != {} <==> UserApi.NameTaken(users, name)
  {
    if UserApi.NameTaken(users, name) {
      var k :| k in users && users[k].userName == name;
      assert k in UsersNamed(users, name);
    }
  }

  // ---------------------------------------------------------------------
  // The user name in the mail

  /** `Base64.getEncoder().encodeToString(userName.getBytes())`. */
  function EmailedUserName(name: string): string
  {
    Base64.Encode(Utf8.Encode(name))
  }

  /**
   * `new String(Base64.getDecoder().decode(param))`: malformed Base64 is an
   * IllegalArgumentException; bytes that are not UTF-8 name no user.
   */
  function DecodedUserName(param: string): (r: Result<Option<string>>)
    ensures r.Err? <==> Base64.Decode(param).Err?
    ensures r.Err? ==> r.error == IllegalArgument
  {
    match Base64.Decode(param)
    case Err(_) => Err(IllegalArgument)
    case Ok(bytes) => Ok(Utf8.Decode(bytes))
  }

  /** The name in a reset mail decodes to the user's name. */
  lemma UserNameRoundTrip(name: string)
    ensures DecodedUserName(EmailedUserName(name)) == Ok(Some(name))
  {
    Base64.DecodeEncode(Utf8.Encode(name));
    Utf8.DecodeEncode(name);
  }

  /** Different user names never share a link. */
  lemma EmailedUserNameInjective(a: string, b: string)
    requires EmailedUserName(a) == EmailedUserName(b)
    ensures a == b
  {
    UserNameRoundTrip(a);
    UserNameRoundTrip(b);
  }

  // ---------------------------------------------------------------------
  // requestPasswordReset

  /** `OffsetDateTime.now().plusMinutes(limit)`, a DateTimeException past the supported range. */
  function ResetExpiry(now: int, limitMinutes: int): (r: Result<int>)
    ensures r.Ok? <==> MinInstant <= now + limitMinutes * NanosPerMinute <= MaxInstant
    ensures r.Ok? ==> r.value - now == limitMinutes * NanosPerMinute
    ensures r.Err? ==> r.error == DateTime
  {
    var t := now + limitMinutes * NanosPerMinute;
    if MinInstant <= t <= MaxInstant then Ok(t) else Err(DateTime)
  }

  /** `user.resetPassword(new PasswordReset().requestId(key).expires(expires))`. */
  function WithReset(u: User, key: Uuid, expires: int): (r: User)
    ensures r.resetPassword == Some(ResetPassword(Some(key), Some(expires)))
    ensures r.(resetPassword := u.resetPassword) == u
  {
    u.(resetPassword := Some(ResetPassword(Some(key), Some(expires))))
  }

  /** `!Strings.isNullOrEmpty(user.getEmail())` */
  predicate HasEmail(u: User)
  {
    u.email.Some? && u.email.value != []
  }

  /**
   * sendPasswordResetEmail after the save: `getUserName().getBytes()` on a
   * null name and `Map.of` with a null first name both throw a
   * NullPointerException.
   */
  function ResetEmailFor(u: User, key: Uuid): (r: Result<ResetEmail>)
    requires HasEmail(u)
    ensures r.Ok? <==> u.userName.Some? && u.firstName.Some?
    ensures r.Err? ==> r.error == NullPointer
    ensures r.Ok? ==> r.value.to == u.email.value && r.value.recipientName == u.firstName.value &&
                      r.value.resetKey == key &&
                      DecodedUserName(r.value.userName) == Ok(u.userName)
  {
    if u.userName.None? || u.firstName.None? then Err(NullPointer)
    else
      UserNameRoundTrip(u.userName.value);
      Ok(ResetEmail(u.email.value, u.firstName.value, EmailedUserName(u.userName.value), key))
  }

  /** Storing a reset key never changes which users a name finds. */
  lemma WithResetKeepsNames(users: map<Uuid, User>, k: Uuid, key: Uuid, expires: int, name: Option<string>)
    requires k in users
    ensures UsersNamed(users[k := WithReset(users[k], key, expires)], name) == UsersNamed(users, name)
  {
  }

  /**
   * requestPasswordReset: the one user the name finds, if it has an e-mail
   * address, gets a fresh reset key expiring `limitMinutes` from now; the
   * key is saved before the mail is composed. `userId` is the user saved.
   */
  method RequestPasswordReset(db: Repositories, userName: Option<string>, freshKey: Uuid, now: int, limitMinutes: int)
    returns (r: Result<ResetEmail>, userId: Option<Uuid>)
    requires db.Valid()
    modifies db`users
    ensures db.Valid()
    ensures UsersNamed(old(db.users), userName) == {} ==> r == Err(UserNameNotFound) && userId.None?
    ensures |UsersNamed(old(db.users), userName)| > 1 ==> r == Err(IncorrectResultSize) && userId.None?
    ensures userId.None? ==> r.Err? && db.users == old(db.users)
    ensures userId.Some? ==>
              var k := userId.value;
              UsersNamed(old(db.users), userName) == {k} && HasEmail(old(db.users)[k]) &&
              ResetExpiry(now, limitMinutes).Ok? &&
              db.users == old(db.users)[k := WithReset(old(db.users)[k], freshKey, ResetExpiry(now, limitMinutes).value)] &&
              r == ResetEmailFor(db.users[k], freshKey)
    ensures (forall k :: UsersNamed(old(db.users), userName) == {k} ==>
               (!HasEmail(old(db.users)[k]) ==> r == Err(UserNameNotFound) && userId.None?) &&
               ((HasEmail(old(db.users)[k]) && ResetExpiry(now, limitMinutes).Err?) ==>
                  r == Err(DateTime) && userId.None?) &&
               ((HasEmail(old(db.users)[k]) && ResetExpiry(now, limitMinutes).Ok?) ==> userId == Some(k)))
  {
    var ks := UsersNamed(db.users, userName);
    userId := None;
    if ks == {} {
      return Err(UserNameNotFound), None;
    }
    var k :| k in ks;
    if ks != {k} {
      assert |ks| > 1 by {
        var j :| j in ks && j != k;
        assert {j, k} <= ks;
        assert |{j, k}| == 2;
        SubsetSize({j, k}, ks);
      }
      return Err(IncorrectResultSize), None;
    }
    assert |ks| == 1;
    var u := db.users[k];
    if !HasEmail(u) {
      return Err(UserNameNotFound), None;
    }
    var expires := ResetExpiry(now, limitMinutes);
    if expires.Err? {
      return Err(DateTime), None;
    }
    var saved := WithReset(u, freshKey, expires.value);
    db.SaveUser(saved);
    userId := Some(k);
    r := ResetEmailFor(saved, freshKey);
  }

  // ---------------------------------------------------------------------
  // changePassword

  /**
   * The filters and the save of changePassword on the user the name found:
   * no stored reset, a different key or an expired one is "not found"; a
   * key that is not a UUID is an IllegalArgumentException from
   * `UUID.fromString`, evaluated before the stored key is dereferenced; a
   * missing stored key or expiry is a NullPointerException; a null new
   * password is bcrypt's IllegalArgumentException.
   */
  function PasswordChanged(u: User, resetId: Option<Uuid>, newPassword: Option<string>, now: int,
                           encode: string -> string): (r: Result<User>)
    ensures r.Ok? <==> u.resetPassword.Some? && resetId.Some? && u.resetPassword.value.requestId == resetId &&
                       u.resetPassword.value.expires.Some? && u.resetPassword.value.expires.value > now &&
                       newPassword.Some?
    ensures r.Ok? ==> r.value.resetPassword.None? && r.value.password == Some(encode(newPassword.value)) &&
                      r.value.(password := u.password, resetPassword := u.resetPassword) == u
    ensures u.resetPassword.None? ==> r == Err(ResetNotFound)
    ensures (u.resetPassword.Some? && resetId.None?) ==> r == Err(IllegalArgument)
    ensures (u.resetPassword.Some? && resetId.Some? && u.resetPassword.value.requestId.Some? &&
             u.resetPassword.value.requestId != resetId) ==> r == Err(ResetNotFound)
    ensures (u.resetPassword.Some? && u.resetPassword.value.requestId == resetId && resetId.Some? &&
             u.resetPassword.value.expires.Some? && u.resetPassword.value.expires.value <= now) ==>
              r == Err(ResetNotFound)
  {
    if u.resetPassword.None? then Err(ResetNotFound)
    else if resetId.None? then Err(IllegalArgument)
    else if u.resetPassword.value.requestId.None? then Err(NullPointer)
    else if u.resetPassword.value.requestId != resetId then Err(ResetNotFound)
    else if u.resetPassword.value.expires.None? then Err(NullPointer)
    else if u.resetPassword.value.expires.value <= now then Err(ResetNotFound)
    else if newPassword.None? then Err(IllegalArgument)
    else Ok(u.(password := Some(encode(newPassword.value)), resetPassword := None))
  }

  /**
   * A key stored by a reset request changes the password with the mailed
   * key before it expires, and only once: the change removes it.
   */
  lemma ResetKeyIsOneShot(u: User, key: Uuid, expires: int, now: int, password: string, again: Option<string>,
                          encode: string -> string)
    requires now < expires
    ensures PasswordChanged(WithReset(u, key, expires), Some(key), Some(password), now, encode).Ok?
    ensures var changed := PasswordChanged(WithReset(u, key, expires), Some(key), Some(password), now, encode).value;
            PasswordChanged(changed, Some(key), again, now, encode) == Err(ResetNotFound)
  {
  }

  /** Past its expiry, and with any other key, the stored reset changes nothing. */
  lemma ResetKeyRefused(u: User, key: Uuid, expires: int, now: int, presented: Uuid, password: Option<string>,
                        encode: string -> string)
    requires expires <= now || presented != key
    ensures PasswordChanged(WithReset(u, key, expires), Some(presented), password, now, encode) == Err(ResetNotFound)
  {
  }

  /**
   * changePassword: `userName` is the Base64 text from the mail, `resetId`
   * the key presented (none when it is not a UUID). `userId` is the user
   * saved, if any.
   */
  method ChangePassword(db: Repositories, userName: string, resetId: Option<Uuid>, newPassword: Option<string>,
                        now: int, encode: string -> string)
    returns (r: Result<()>, userId: Option<Uuid>)
    requires db.Valid()
    modifies db`users
    ensures db.Valid()
    ensures DecodedUserName(userName).Err? ==> r == Err(IllegalArgument)
    ensures DecodedUserName(userName) == Ok(None) ==> r == Err(ResetNotFound)
    ensures (forall name :: (DecodedUserName(userName) == Ok(Some(name)) && UsersNamed(old(db.users), Some(name)) == {}) ==>
               r == Err(ResetNotFound))
    ensures (forall name :: (DecodedUserName(userName) == Ok(Some(name)) && |UsersNamed(old(db.users), Some(name))| > 1) ==>
               r == Err(IncorrectResultSize))
    ensures r.Ok? <==> userId.Some?
    ensures r.Err? ==> db.users == old(db.users)
    ensures userId.Some? ==>
              var k := userId.value;
              DecodedUserName(userName).Ok? && DecodedUserName(userName).value.Some? &&
              UsersNamed(old(db.users), DecodedUserName(userName).value) == {k} &&
              PasswordChanged(old(db.users)[k], resetId, newPassword, now, encode).Ok? &&
              db.users == old(db.users)[k := PasswordChanged(old(db.users)[k], resetId, newPassword, now, encode).value]
    ensures (forall name, k :: (DecodedUserName(userName) == Ok(Some(name)) && UsersNamed(old(db.users), Some(name)) == {k}) ==>
               (PasswordChanged(old(db.users)[k], resetId, newPassword, now, encode).Err? ==>
                  r == Err(PasswordChanged(old(db.users)[k], resetId, newPassword, now, encode).error)) &&
               (PasswordChanged(old(db.users)[k], resetId, newPassword, now, encode).Ok? ==> userId == Some(k)))
  {
    userId := None;
    var decoded := DecodedUserName(userName);
    if decoded.Err? {
      return Err(IllegalArgument), None;
    }
    if decoded.value.None? {
      return Err(ResetNotFound), None;
    }
    var ks := UsersNamed(db.users, decoded.value);
    if ks == {} {
      return Err(ResetNotFound), None;
    }
    var k :| k in ks;
    if ks != {k} {
      return Err(IncorrectResultSize), None;
    }
    assert |ks| == 1;
    var changed := PasswordChanged(db.users[k], resetId, newPassword, now, encode);
    if changed.Err? {
      return Err(changed.error), None;
    }
    db.SaveUser(changed.value);
    return Ok(()), Some(k);
  }

  /**
   * The whole flow: after a reset request for a user whose name finds only
   * them, the name and key from the mail change the password before the
   * expiry.
   */
  lemma MailedLinkChangesPassword(users: map<Uuid, User>, k: Uuid, key: Uuid, expires: int, now: int,
                                  password: string, encode: string -> string)
    requires k in users && users[k].userName.Some? && users[k].firstName.Some? && HasEmail(users[k])
    requires UsersNamed(users, users[k].userName) == {k}
    requires now < expires
    ensures var saved := users[k := WithReset(users[k], key, expires)];
            var mail := ResetEmailFor(saved[k], key);
            mail.Ok? &&
            DecodedUserName(mail.value.userName) == Ok(users[k].userName) &&
            UsersNamed(saved, users[k].userName) == {k} &&
            PasswordChanged(saved[k], Some(mail.value.resetKey), Some(password), now, encode).Ok?
  {
    WithResetKeepsNames(users, k, key, expires, users[k].userName);
  }
}

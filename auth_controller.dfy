/** The session cookie and the password-reset handlers of
    server/src/controllers/auth.controller.js. The random reset token, the clock,
    sha256, bcrypt and the outcome of sending the reset email are parameters. */
module AuthController {
  import opened Common
  import opened PostModel
  import opened ServerStore
  import opened UserModel
  import opened AuthService

  /** `cookieOptions.maxAge`: seven days in milliseconds. */
  const CookieMaxAgeMs: int := 7 * 24 * 60 * 60 * 1000

  /** The options every auth cookie is set with; `secure` follows NODE_ENV. */
  datatype CookieOptions = CookieOptions(httpOnly: bool, secure: bool, sameSite: string, path: string, maxAge: int)

  function SessionCookie(production: bool): (c: CookieOptions)
    ensures c.maxAge == 604800000 && c.httpOnly && c.secure == production
  {
    CookieOptions(true, production, "lax", "/", CookieMaxAgeMs)
  }

  /** A reply that sets the `accessToken` cookie. */
  datatype SessionReply = SessionReply(status: int, user: User, cookieName: string, cookieValue: string, options: CookieOptions)

  /** `register` and `login`: a thrown error keeps its status; success sets the cookie
      to the session's token, with 201 for a registration and 200 for a login. */
  function SessionResponse(r: Result<Session, ApiError>, created: bool, production: bool): Result<SessionReply, ApiError>
  {
    match r
    case Err(e) => Err(e)
    case Ok(session) =>
      Ok(SessionReply(if created then 201 else 200, session.user, "accessToken", session.token, SessionCookie(production)))
  }

  /** What `register` and `login` answer. A taken email is refused with 409 and an
      unknown email or a wrong password with the same 401, without a cookie. A
      registration answers 201 with the new user, and a login 200 with the user
      found; either way the `accessToken` cookie holds the JWT signed over that
      user's id and email and lives seven days. */
  lemma SessionReplies(users: seq<User>, name: Option<string>, email: string, password: Option<string>,
                       newId: UserId, bcrypt: string -> string, attempt: string,
                       bcryptCompare: (string, string) -> bool, sign: (string, string) -> string, production: bool)
    ensures var reg := SessionResponse(RegisterUserSpec(users, name, email, password, newId, bcrypt, sign).1, true, production);
      && ((exists j :: 0 <= j < |users| && users[j].email == NormalizeEmail(email)) ==>
            reg == Err(ApiError(409, "Email already in use")))
      && (reg.Ok? ==>
            && reg.value.status == 201 && reg.value.user.id == newId
            && reg.value.user.email == NormalizeEmail(email)
            && reg.value.cookieName == "accessToken" && reg.value.cookieValue == sign(newId, NormalizeEmail(email))
            && reg.value.options.maxAge == 604800000 && reg.value.options.httpOnly)
    ensures var login := SessionResponse(LoginUser(users, email, Some(attempt), bcryptCompare, sign), false, production);
      && (login.Err? ==> login == Err(InvalidCredentials))
      && (login.Ok? ==>
            && login.value.status == 200 && login.value.user in users
            && login.value.user.email == NormalizeEmail(email)
            && login.value.cookieName == "accessToken"
            && login.value.cookieValue == sign(login.value.user.id, login.value.user.email)
            && login.value.options.maxAge == 604800000 && login.value.options.httpOnly)
  {
    RegisterUserOutcome(users, name, email, password, newId, bcrypt, sign);
    LoginUserOutcome(users, email, attempt, bcryptCompare, sign);
    var found := FindByEmail(users, email);
    if found.Some? {
      assert users[found.value].email == NormalizeEmail(email);
    }
  }

  // ---------------------------------------------------------------- forgotPassword

  const ForgotMessage := "If that email exists, a reset link has been sent."
  const ResetWindowMs: int := 60 * 60 * 1000

  /** forgotPassword: an unknown email gets the generic reply at once; a known one gets
      the sha256 of the fresh raw token and an expiry one hour ahead, saved without
      validation, before the email is sent. A failing email send surfaces as a 500,
      after the token was saved. */
  function ForgotPasswordSpec(users: seq<User>, email: JsString, raw: string, now: int,
                              sha256: string -> string, mailSent: bool): (seq<User>, Response<string>)
  {
    match FindOneByEmail(users, email)
    case None => (users, Success(200, ForgotMessage))
    case Some(i) =>
      var u := users[i].(resetToken := Some(sha256(raw)), resetExpires := Some(now + ResetWindowMs));
      (users[i := u], if mailSent then Success(200, ForgotMessage) else Failure(500, "Email could not be sent"))
  }

  method ForgotPassword(db: Db, email: JsString, raw: string, now: int, sha256: string -> string, mailSent: bool)
    returns (r: Response<string>)
    modifies db
    ensures (db.users, r) == ForgotPasswordSpec(old(db.users), email, raw, now, sha256, mailSent)
    ensures db.State() == old(db.State()).(users := db.users)
  {
    var found := FindOneByEmail(db.users, email);
    if found.None? {
      return Success(200, ForgotMessage);
    }
    var user := db.users[found.value];
    user := user.(resetToken := Some(sha256(raw)));
    user := user.(resetExpires := Some(now + ResetWindowMs));
    db.users := db.users[found.value := user];
    if !mailSent {
      return Failure(500, "Email could not be sent");
    }
    r := Success(200, ForgotMessage);
  }

  /** The reply does not reveal whether the email is registered. An unknown email
      changes nothing; a known one stores, on the first user with that email only, the
      hash of the raw token and an expiry of now + 3,600,000 ms. A body without an
      email gives the first stored user, if there is one, a token in the same way; a
      null email finds nobody and changes nothing. */
  lemma ForgotPasswordOutcome(users: seq<User>, email: JsString, raw: string, now: int, sha256: string -> string)
    ensures var (users', r) := ForgotPasswordSpec(users, email, raw, now, sha256, true);
      && r == Success(200, "If that email exists, a reset link has been sent.")
      && |users'| == |users|
      && (email.Null? ==> users' == users)
      && (email.Str? ==>
            && ((forall j :: 0 <= j < |users| ==> users[j].email != NormalizeEmail(email.value)) ==> users' == users)
            && (forall j :: 0 <= j < |users| && users[j].email != NormalizeEmail(email.value) ==> users'[j] == users[j])
            && ((exists j :: 0 <= j < |users| && users[j].email == NormalizeEmail(email.value)) ==>
                 exists i :: 0 <= i < |users| && users[i].email == NormalizeEmail(email.value)
                   && users'[i] == users[i].(resetToken := Some(sha256(raw)), resetExpires := Some(now + 3600000))
                   && forall j :: 0 <= j < |users| && j != i ==> users'[j] == users[j]))
      && (email.Undefined? ==>
            && (users == [] ==> users' == users)
            && (users != [] ==>
                  && users'[0] == users[0].(resetToken := Some(sha256(raw)), resetExpires := Some(now + 3600000))
                  && users'[1..] == users[1..]))
  {
    if email.Str? && exists j :: 0 <= j < |users| && users[j].email == NormalizeEmail(email.value) {
      var i := FindByEmail(users, email.value).value;
      assert users[i].email == NormalizeEmail(email.value);
    }
  }

  // ---------------------------------------------------------------- resetPassword

  /** The query of resetPassword: a stored token hash equal to `hashed` whose expiry is
      strictly later than `now`. */
  predicate ResetMatches(u: User, hashed: string, now: int)
  {
    u.resetToken == Some(hashed) && u.resetExpires.Some? && u.resetExpires.value > now
  }

  function FindByResetToken(users: seq<User>, hashed: string, now: int): (r: Option<nat>)
    ensures r.Some? ==> r.value < |users| && ResetMatches(users[r.value], hashed, now)
    ensures r.Some? ==> forall j :: 0 <= j < r.value ==> !ResetMatches(users[j], hashed, now)
    ensures r.None? ==> forall j :: 0 <= j < |users| ==> !ResetMatches(users[j], hashed, now)
  {
    if users == [] then None
    else if ResetMatches(users[0], hashed, now) then Some(0)
    else match FindByResetToken(users[1..], hashed, now)
      case None => None
      case Some(k) => Some(k + 1)
  }

  const InvalidTokenMessage := "Token is invalid or has expired."

  /** resetPassword: hashing a missing token throws; an unmatched or expired token gives
      400; otherwise the password is replaced and the token and expiry cleared, and the
      save validates the new password and hashes it for a local account. */
  function ResetPasswordSpec(users: seq<User>, token: Option<string>, password: Option<string>, now: int,
                             sha256: string -> string, bcrypt: string -> string): (seq<User>, Response<string>)
  {
    if token.None? then (users, Failure(500, "The data argument must be of type string"))
    else match FindByResetToken(users, sha256(token.value), now)
      case None => (users, Failure(400, InvalidTokenMessage))
      case Some(i) =>
        if !PasswordValid(password) then (users, Failure(500, "User validation failed"))
        else
          var u := users[i].(password := HashOnSave(users[i].provider, password, bcrypt),
                             resetToken := None, resetExpires := None);
          (users[i := u], Success(200, "Password has been reset."))
  }

  method ResetPassword(db: Db, token: Option<string>, password: Option<string>, now: int,
                       sha256: string -> string, bcrypt: string -> string)
    returns (r: Response<string>)
    modifies db
    ensures (db.users, r) == ResetPasswordSpec(old(db.users), token, password, now, sha256, bcrypt)
    ensures db.State() == old(db.State()).(users := db.users)
  {
    if token.None? {
      return Failure(500, "The data argument must be of type string");
    }
    var hashed := sha256(token.value);
    var found := FindByResetToken(db.users, hashed, now);
    if found.None? {
      return Failure(400, InvalidTokenMessage);
    }
    var user := db.users[found.value];
    user := user.(password := password);
    user := user.(resetToken := None, resetExpires := None);
    if !PasswordValid(user.password) {
      return Failure(500, "User validation failed");
    }
    user := user.(password := HashOnSave(user.provider, user.password, bcrypt));
    db.users := db.users[found.value := user];
    r := Success(200, "Password has been reset.");
  }

  /** Success needs a user whose stored hash is the hash of the presented token and
      whose expiry is strictly later than now; anything else leaves every user as it
      was. A success clears that user's token and expiry, stores the new password
      (hashed for a local account, as given for an OAuth one) and touches nobody else. */
  lemma ResetPasswordOutcome(users: seq<User>, token: string, password: Option<string>, now: int,
                             sha256: string -> string, bcrypt: string -> string)
    ensures var (users', r) := ResetPasswordSpec(users, Some(token), password, now, sha256, bcrypt);
      && (r.Failure? ==> users' == users)
      && ((forall j :: 0 <= j < |users| ==> !ResetMatches(users[j], sha256(token), now))
            ==> r == Failure(400, "Token is invalid or has expired."))
      && (r.Success? <==>
            PasswordValid(password) && exists j :: 0 <= j < |users| && ResetMatches(users[j], sha256(token), now))
      && (r.Success? ==>
            && |users'| == |users|
            && exists i :: 0 <= i < |users| && ResetMatches(users[i], sha256(token), now)
                 && users'[i].resetToken.None? && users'[i].resetExpires.None?
                 && users'[i].password == HashOnSave(users[i].provider, password, bcrypt)
                 && users'[i].id == users[i].id && users'[i].email == users[i].email
                 && forall j :: 0 <= j < |users| && j != i ==> users'[j] == users[j])
  {
    var found := FindByResetToken(users, sha256(token), now);
    if found.Some? {
      assert ResetMatches(users[found.value], sha256(token), now);
    }
  }

  /** A token whose expiry equals the current time is already expired. */
  lemma ResetAtExpiryFails(users: seq<User>, token: string, password: Option<string>, now: int,
                           sha256: string -> string, bcrypt: string -> string)
    requires forall j :: 0 <= j < |users| && users[j].resetToken == Some(sha256(token)) ==> users[j].resetExpires == Some(now)
    ensures ResetPasswordSpec(users, Some(token), password, now, sha256, bcrypt) == (users, Failure(400, InvalidTokenMessage))
  {
  }

  /** A token cannot be used twice: when only one user held its hash, a second reset
      with it gives 400. */
  lemma ResetNotReusable(users: seq<User>, token: string, password: Option<string>, now: int, later: int,
                         sha256: string -> string, bcrypt: string -> string, i: nat)
    requires i < |users| && forall j :: 0 <= j < |users| && j != i ==> users[j].resetToken != Some(sha256(token))
    requires ResetPasswordSpec(users, Some(token), password, now, sha256, bcrypt).1.Success?
    ensures var users' := ResetPasswordSpec(users, Some(token), password, now, sha256, bcrypt).0;
      ResetPasswordSpec(users', Some(token), password, later, sha256, bcrypt) == (users', Failure(400, InvalidTokenMessage))
  {
    var users' := ResetPasswordSpec(users, Some(token), password, now, sha256, bcrypt).0;
    var k := FindByResetToken(users, sha256(token), now).value;
    assert k == i;
    forall j | 0 <= j < |users'| ensures !ResetMatches(users'[j], sha256(token), later) {
      if j != i { assert users'[j] == users[j]; }
    }
  }

  /** A second forgotPassword for the same email replaces the stored hash, so the
      first raw token stops working when no other user held its hash and the two raw
      tokens hash differently. */
  lemma ForgotAgainRevokesEarlierToken(users: seq<User>, email: string, raw1: string, raw2: string,
                                       now1: int, now2: int, later: int, password: Option<string>,
                                       sha256: string -> string, bcrypt: string -> string)
    requires sha256(raw1) != sha256(raw2)
    requires forall j :: 0 <= j < |users| ==> users[j].resetToken != Some(sha256(raw1))
    ensures var users1 := ForgotPasswordSpec(users, Str(email), raw1, now1, sha256, true).0;
      var users2 := ForgotPasswordSpec(users1, Str(email), raw2, now2, sha256, true).0;
      ResetPasswordSpec(users2, Some(raw1), password, later, sha256, bcrypt) == (users2, Failure(400, InvalidTokenMessage))
  {
    var users1 := ForgotPasswordSpec(users, Str(email), raw1, now1, sha256, true).0;
    var users2 := ForgotPasswordSpec(users1, Str(email), raw2, now2, sha256, true).0;
    var f1 := FindByEmail(users, email);
    if f1.Some? {
      var i := f1.value;
      assert forall j :: 0 <= j < |users| ==> users1[j].email == users[j].email;
      assert FindByEmail(users1, email) == f1 by {
        var f := FindByEmail(users1, email);
        assert users1[i].email == NormalizeEmail(email);
        assert f.Some?;
      }
      forall j | 0 <= j < |users2| ensures users2[j].resetToken != Some(sha256(raw1)) {
        if j != i { assert users2[j] == users1[j] == users[j]; }
      }
    }
  }

  /** The round trip: a reset with the raw token that forgotPassword issued for a
      registered email, within the hour and with a password of at least 6 characters,
      succeeds. */
  lemma ForgotThenReset(users: seq<User>, email: string, raw: string, now: int, later: int,
                        password: string, sha256: string -> string, bcrypt: string -> string)
    requires exists j :: 0 <= j < |users| && users[j].email == NormalizeEmail(email)
    requires later < now + 3600000
    requires Utf16Length(password) >= 6
    ensures var users1 := ForgotPasswordSpec(users, Str(email), raw, now, sha256, true).0;
      ResetPasswordSpec(users1, Some(raw), Some(password), later, sha256, bcrypt).1 == Success(200, "Password has been reset.")
  {
    var users1 := ForgotPasswordSpec(users, Str(email), raw, now, sha256, true).0;
    var i := FindByEmail(users, email).value;
    assert users[i].email == NormalizeEmail(email);
    assert ResetMatches(users1[i], sha256(raw), later);
  }
}

/** The request authentication of server/src/middleware/auth.middleware.js: where the
    token comes from, and how each failure is reported. JWT verification is a
    parameter; `findById` reads the stored users. */
module AuthMiddleware {
  import opened Common
  import opened PostModel
  import opened ServerStore

  /** The characters of `s` before its first space: element 1 of `split(" ")` when `s`
      is what follows the first space. */
  function FirstField(s: string): (r: string)
    ensures |r| <= |s| && r == s[..|r|]
    ensures ' ' !in r
    ensures |r| < |s| ==> s[|r|] == ' '
  {
    if s == [] || s[0] == ' ' then [] else [s[0]] + FirstField(s[1..])
  }

  const BearerPrefix := "Bearer "

  /** The token expression: a truthy `accessToken` cookie, else the second
      space-separated field of an Authorization header that starts with "Bearer ";
      an empty result counts as no token. */
  function TokenFrom(cookie: Option<string>, authorization: Option<string>): (r: Option<string>)
    ensures r.Some? ==> r.value != ""
  {
    if cookie.Some? && cookie.value != "" then cookie
    else if authorization.Some? && StartsWith(authorization.value, BearerPrefix) then
      var t := FirstField(authorization.value[|BearerPrefix|..]);
      if t == "" then None else Some(t)
    else None
  }

  /** The cookie wins whenever it is truthy; the header is read only when it starts
      with "Bearer ", and then gives the text up to the next space; a bare "Bearer "
      gives no token. */
  lemma TokenFromSpec(cookie: Option<string>, authorization: Option<string>)
    ensures cookie.Some? && cookie.value != "" ==> TokenFrom(cookie, authorization) == cookie
    ensures ((cookie.None? || cookie.value == "") && (authorization.None? || !StartsWith(authorization.value, "Bearer ")))
              ==> TokenFrom(cookie, authorization).None?
    ensures (cookie.None? || cookie.value == "") && authorization == Some("Bearer ") ==> TokenFrom(cookie, authorization).None?
  {
  }

  /** A header "Bearer <t>" with a space-free, non-empty `t` yields exactly `t`, and so
      does one with further fields after `t`. */
  lemma {:induction false} BearerTokenRoundTrip(t: string, rest: string)
    requires t != "" && ' ' !in t
    ensures TokenFrom(None, Some(BearerPrefix + t)) == Some(t)
    ensures TokenFrom(None, Some(BearerPrefix + t + " " + rest)) == Some(t)
  {
    FirstFieldOf(t, "");
    FirstFieldOf(t, " " + rest);
    assert (BearerPrefix + t)[|BearerPrefix|..] == t + "";
    assert (BearerPrefix + t + " " + rest)[|BearerPrefix|..] == t + (" " + rest);
  }

  lemma {:induction false} FirstFieldOf(t: string, rest: string)
    requires ' ' !in t
    requires rest == [] || rest[0] == ' '
    ensures FirstField(t + rest) == t
  {
    if t != [] {
      assert (t + rest)[1..] == t[1..] + rest;
      FirstFieldOf(t[1..], rest);
    } else {
      assert t + rest == rest;
    }
  }

  /** What `jwt.verify` does with a token: it yields the payload's `sub`, or throws an
      error with the given `name`. */
  datatype Verification = Verified(sub: Option<string>) | VerifyError(name: string)

  /** How the middleware ends: the error it passes to `next`, carrying a status when it
      is an ApiError; anything else reaches the error middleware as a 500. */
  datatype AuthFailure = ApiFailure(status: int, message: string) | PassedOn(name: string)

  const TokenMissing := ApiFailure(401, "Authentication token missing")
  const BadToken := ApiFailure(401, "Invalid or expired token")
  const UserNotFound := ApiFailure(401, "User not found")

  /** The middleware: on success the user attached to the request, without its password. */
  function Authenticate(cookie: Option<string>, authorization: Option<string>, verify: string -> Verification,
                        isValidId: string -> bool, users: seq<User>): Result<User, AuthFailure>
  {
    match TokenFrom(cookie, authorization)
    case None => Err(TokenMissing)
    case Some(token) =>
      match verify(token)
      case VerifyError(name) =>
        if name == "JsonWebTokenError" || name == "TokenExpiredError" then Err(BadToken) else Err(PassedOn(name))
      case Verified(sub) =>
        if sub.None? then Err(UserNotFound)
        else if !isValidId(sub.value) then Err(PassedOn("CastError"))
        else match UserById(users, sub.value)
          case None => Err(UserNotFound)
          case Some(u) => Ok(u.(password := None))
  }

  /** A request is authenticated exactly when it carries a token that verifies to the
      id of a stored user, who is then attached without a password. The two JWT errors
      become 401 "Invalid or expired token", any other error is passed on by name,
      and an unknown subject gives 401 "User not found". */
  lemma AuthenticateOutcome(cookie: Option<string>, authorization: Option<string>, verify: string -> Verification,
                            isValidId: string -> bool, users: seq<User>)
    ensures var r := Authenticate(cookie, authorization, verify, isValidId, users);
      var token := TokenFrom(cookie, authorization);
      && (token.None? ==> r == Err(TokenMissing))
      && (r.Ok? <==>
            token.Some? && verify(token.value).Verified? && verify(token.value).sub.Some?
            && isValidId(verify(token.value).sub.value)
            && exists i :: 0 <= i < |users| && users[i].id == verify(token.value).sub.value)
      && (r.Ok? ==> r.value.id == verify(token.value).sub.value && r.value.password.None?
                    && exists i :: 0 <= i < |users| && users[i] == r.value.(password := users[i].password))
      && (token.Some? && verify(token.value).VerifyError? ==>
            var name := verify(token.value).name;
            r == (if name == "JsonWebTokenError" || name == "TokenExpiredError" then Err(BadToken) else Err(PassedOn(name))))
  {
    var token := TokenFrom(cookie, authorization);
    if token.Some? && verify(token.value).Verified? && verify(token.value).sub.Some? && isValidId(verify(token.value).sub.value) {
      var id := verify(token.value).sub.value;
      var found := UserById(users, id);
      if found.Some? {
        var i :| 0 <= i < |users| && users[i] == found.value;
        assert users[i] == found.value.(password := None).(password := users[i].password);
      }
    }
  }
}

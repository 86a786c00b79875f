/** The account operations of server/src/services/auth.service.js: OAuth sign-in by
    email, local registration with its email-conflict check, and login with one error
    for every kind of bad credentials. bcrypt and the JWT signer are parameters. */
module AuthService {
  import opened Common
  import opened PostModel
  import opened ServerStore
  import opened UserModel

  /** An error thrown to the error middleware, which replies with its status. */
  datatype ApiError = ApiError(status: int, message: string)

  /** A signed-in user and the JWT issued for them. */
  datatype Session = Session(user: User, token: string)

  const InvalidCredentials := ApiError(401, "Invalid credentials")

  /** An error the model layer throws carries no status, so the error middleware answers 500. */
  function SaveFailure(e: UserError): (r: ApiError)
    ensures r.status == 500
  {
    match e
    case InvalidUser => ApiError(500, "User validation failed")
    case DuplicateEmail => ApiError(500, "E11000 duplicate key error")
  }

  /** `createToken`: a JWT whose claims are the user's id and email. */
  function CreateToken(u: User, sign: (string, string) -> string): string
  {
    sign(u.id, u.email)
  }

  // ---------------------------------------------------------------- authenticateWithOAuth

  /** The verified Google payload or GitHub profile: Google payloads name the account
      in `sub`, GitHub profiles in `id`. */
  datatype OAuthClaims = OAuthClaims(email: JsString, name: Option<string>, id: Option<string>, sub: Option<string>)

  /** The document returned to the caller: `googleId` and `githubId` are set on it in
      memory, but the schema has no such paths, so they are never stored. */
  datatype OAuthAccount = OAuthAccount(user: User, googleId: Option<string>, githubId: Option<string>)

  function AuthenticateWithOAuthSpec(users: seq<User>, claims: OAuthClaims, provider: Provider, newId: UserId,
                                     bcrypt: string -> string): (seq<User>, Result<OAuthAccount, UserError>)
  {
    match FindOneByEmail(users, claims.email)
    case Some(i) => (users, Ok(OAuthAccount(users[i], None, None)))
    case None =>
      var googleId := if provider == Google then claims.sub else None;
      var githubId := if provider == Github then claims.id else None;
      match NewUser(users, newId, claims.name, Present(claims.email), None, provider, claims.id, bcrypt)
      case Ok(u) => (users + [u], Ok(OAuthAccount(u, googleId, githubId)))
      case Err(e) => (users, Err(e))
  }

  method AuthenticateWithOAuth(db: Db, claims: OAuthClaims, provider: Provider, newId: UserId,
                               bcrypt: string -> string)
    returns (r: Result<OAuthAccount, UserError>)
    modifies db
    ensures (db.users, r) == AuthenticateWithOAuthSpec(old(db.users), claims, provider, newId, bcrypt)
    ensures db.State() == old(db.State()).(users := db.users)
  {
    var found := FindOneByEmail(db.users, claims.email);
    if found.Some? {
      return Ok(OAuthAccount(db.users[found.value], None, None));
    }
    var account := OAuthAccount(User(newId, "", "", None, provider, claims.id, None, None), None, None);
    if provider == Google {
      account := account.(googleId := claims.sub);
    } else if provider == Github {
      account := account.(githubId := claims.id);
    }
    var saved := NewUser(db.users, newId, claims.name, Present(claims.email), None, provider, claims.id, bcrypt);
    if saved.Err? {
      return Err(saved.error);
    }
    db.users := db.users + [saved.value];
    r := Ok(account.(user := saved.value));
  }

  /** A user whose email matches is returned unchanged and nothing is stored. A profile
      without an `email` field matches the first stored user, and with no users it
      fails the schema. A null email (a GitHub profile with a private address) finds
      nobody and fails the schema's `required`, so nothing is stored. Otherwise
      at most one user is created, with the given provider and `providerId = profile.id`;
      the Google path reports `googleId = sub`, the GitHub path `githubId = id`, and
      neither is stored. */
  lemma AuthenticateWithOAuthOutcome(users: seq<User>, claims: OAuthClaims, provider: Provider, newId: UserId,
                                     bcrypt: string -> string)
    ensures var (users', r) := AuthenticateWithOAuthSpec(users, claims, provider, newId, bcrypt);
      && ((claims.email.Str? && exists j :: 0 <= j < |users| && users[j].email == NormalizeEmail(claims.email.value))
            ==> users' == users && r.Ok? && r.value.user in users
                && r.value.user.email == NormalizeEmail(claims.email.value)
                && r.value.googleId.None? && r.value.githubId.None?)
      && (claims.email.Undefined? ==>
            && users' == users
            && (users != [] ==> r == Ok(OAuthAccount(users[0], None, None)))
            && (users == [] ==> r == Err(InvalidUser)))
      && (claims.email.Null? ==> users' == users && r == Err(InvalidUser))
      && ((claims.email.Str? && forall j :: 0 <= j < |users| ==> users[j].email != NormalizeEmail(claims.email.value))
            ==> && (r.Ok? ==>
                      && users' == users + [r.value.user]
                      && r.value.user.provider == provider && r.value.user.providerId == claims.id
                      && r.value.user.password.None?
                      && r.value.googleId == (if provider == Google then claims.sub else None)
                      && r.value.githubId == (if provider == Github then claims.id else None))
                && (r.Err? ==> users' == users))
  {
    if claims.email.Str? && exists j :: 0 <= j < |users| && users[j].email == NormalizeEmail(claims.email.value) {
      var i := FindByEmail(users, claims.email.value).value;
      assert users[i].email == NormalizeEmail(claims.email.value);
    }
  }

  // ---------------------------------------------------------------- registerUser

  function RegisterUserSpec(users: seq<User>, name: Option<string>, email: string, password: Option<string>,
                            newId: UserId, bcrypt: string -> string, sign: (string, string) -> string)
    : (seq<User>, Result<Session, ApiError>)
  {
    if FindByEmail(users, email).Some? then (users, Err(ApiError(409, "Email already in use")))
    else match NewUser(users, newId, name, Some(email), password, Local, None, bcrypt)
      case Err(e) => (users, Err(SaveFailure(e)))
      case Ok(u) => (users + [u], Ok(Session(u, CreateToken(u, sign))))
  }

  method RegisterUser(db: Db, name: Option<string>, email: string, password: Option<string>, newId: UserId,
                      bcrypt: string -> string, sign: (string, string) -> string)
    returns (r: Result<Session, ApiError>)
    modifies db
    ensures (db.users, r) == RegisterUserSpec(old(db.users), name, email, password, newId, bcrypt, sign)
    ensures db.State() == old(db.State()).(users := db.users)
  {
    var existing := FindByEmail(db.users, email);
    if existing.Some? {
      return Err(ApiError(409, "Email already in use"));
    }
    var user := NewUser(db.users, newId, name, Some(email), password, Local, None, bcrypt);
    if user.Err? {
      return Err(SaveFailure(user.error));
    }
    db.users := db.users + [user.value];
    r := Ok(Session(user.value, CreateToken(user.value, sign)));
  }

  /** A taken email gives 409 "Email already in use" and creates nobody. A successful
      registration adds exactly one local user, stores the bcrypt hash of a given
      password rather than the password, and issues the token for that user. */
  lemma RegisterUserOutcome(users: seq<User>, name: Option<string>, email: string, password: Option<string>,
                            newId: UserId, bcrypt: string -> string, sign: (string, string) -> string)
    ensures var (users', r) := RegisterUserSpec(users, name, email, password, newId, bcrypt, sign);
      && ((exists j :: 0 <= j < |users| && users[j].email == NormalizeEmail(email))
            ==> users' == users && r == Err(ApiError(409, "Email already in use")))
      && (r.Err? ==> users' == users)
      && (r.Ok? ==>
            && users' == users + [r.value.user]
            && r.value.user.id == newId && r.value.user.provider == Local
            && r.value.user.email == NormalizeEmail(email)
            && r.value.token == sign(newId, NormalizeEmail(email))
            && (password.Some? ==> r.value.user.password == Some(bcrypt(password.value))))
  {
    NewUserSpec(users, newId, name, Some(email), password, Local, None, bcrypt);
    if exists j :: 0 <= j < |users| && users[j].email == NormalizeEmail(email) {
      assert FindByEmail(users, email).Some?;
    }
  }

  // ---------------------------------------------------------------- loginUser

  /** `password.toString()` on a missing password throws a TypeError. */
  const MissingPasswordError := ApiError(500, "Cannot read properties of undefined (reading 'toString')")

  function LoginUser(users: seq<User>, email: string, password: Option<string>,
                     bcryptCompare: (string, string) -> bool, sign: (string, string) -> string)
    : Result<Session, ApiError>
  {
    match FindByEmail(users, email)
    case None => Err(InvalidCredentials)
    case Some(i) =>
      if password.None? then Err(MissingPasswordError)
      else if !IsValidPassword(users[i], password.value, bcryptCompare) then Err(InvalidCredentials)
      else Ok(Session(users[i], CreateToken(users[i], sign)))
  }

  /** An unknown email and a wrong password give the same 401 "Invalid credentials",
      and an account without a stored password (an OAuth account) can never log in
      with one. A login succeeds exactly when the first user with the email has a
      password that bcrypt accepts, and then issues that user's token. */
  lemma LoginUserOutcome(users: seq<User>, email: string, password: string,
                         bcryptCompare: (string, string) -> bool, sign: (string, string) -> string)
    ensures var r := LoginUser(users, email, Some(password), bcryptCompare, sign);
      && ((forall j :: 0 <= j < |users| ==> users[j].email != NormalizeEmail(email)) ==> r == Err(InvalidCredentials))
      && (r.Err? ==> r == Err(InvalidCredentials))
      && (r.Ok? <==>
            exists i :: 0 <= i < |users| && users[i].email == NormalizeEmail(email)
              && (forall j :: 0 <= j < i ==> users[j].email != NormalizeEmail(email))
              && users[i].password.Some? && users[i].password.value != ""
              && bcryptCompare(password, users[i].password.value))
      && (r.Ok? ==> r.value.user in users && r.value.token == sign(r.value.user.id, r.value.user.email)
                    && r.value.user.password.Some?)
  {
    var found := FindByEmail(users, email);
    if found.Some? {
      var i := found.value;
      forall k | 0 <= k < |users| && users[k].email == NormalizeEmail(email)
                 && (forall j :: 0 <= j < k ==> users[j].email != NormalizeEmail(email))
        ensures k == i
      {
      }
    }
  }

  /** Registering with a password and then logging in with the same password
      succeeds, provided bcrypt accepts a password against its own hash. */
  lemma RegisterThenLogin(users: seq<User>, name: Option<string>, email: string, password: string,
                          newId: UserId, bcrypt: string -> string, bcryptCompare: (string, string) -> bool,
                          sign: (string, string) -> string)
    requires forall p :: bcryptCompare(p, bcrypt(p))
    requires forall p :: bcrypt(p) != ""
    requires RegisterUserSpec(users, name, email, Some(password), newId, bcrypt, sign).1.Ok?
    ensures var users' := RegisterUserSpec(users, name, email, Some(password), newId, bcrypt, sign).0;
      LoginUser(users', email, Some(password), bcryptCompare, sign).Ok?
  {
    var (users', r) := RegisterUserSpec(users, name, email, Some(password), newId, bcrypt, sign);
    RegisterUserOutcome(users, name, email, Some(password), newId, bcrypt, sign);
    NewUserSpec(users, newId, name, Some(email), Some(password), Local, None, bcrypt);
    assert users'[|users|].email == NormalizeEmail(email);
    var i := FindByEmail(users', email).value;
    assert users'[i] == r.value.user;
  }
}

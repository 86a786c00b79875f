/** The account resolution `findOrCreate` of server/src/config/passport.js, shared by
    the Google and GitHub strategies: an account already linked to the provider wins,
    then an account with the profile's email is relinked, and only then is a new
    password-less account created. */
module Passport {
  import opened Common
  import opened PostModel
  import opened ServerStore
  import opened UserModel

  /** The parts of a passport profile that `findOrCreate` reads; `emails` holds the
      `value` of each entry of `profile.emails`. */
  datatype Profile = Profile(id: string, displayName: Option<string>, username: Option<string>, emails: seq<string>)

  /** `profile.emails?.[0]?.value`. */
  function ProfileEmail(p: Profile): Option<string>
  {
    if |p.emails| > 0 then Some(p.emails[0]) else None
  }

  /** `profile.displayName || profile.username || "Unnamed User"`. */
  function ProfileName(p: Profile): (r: string)
    ensures r != ""
    ensures p.displayName.Some? && p.displayName.value != "" ==> r == p.displayName.value
    ensures ((p.displayName.None? || p.displayName.value == "") && p.username.Some? && p.username.value != "")
              ==> r == p.username.value
    ensures ((p.displayName.None? || p.displayName.value == "") && (p.username.None? || p.username.value == ""))
              ==> r == "Unnamed User"
  {
    OrElse(p.displayName, OrElse(p.username, "Unnamed User"))
  }

  /** `User.findOne({provider, providerId: profile.id})`: the first user linked to this
      provider account. */
  function FindLinked(users: seq<User>, provider: Provider, providerId: string): (r: Option<nat>)
    ensures r.Some? ==> r.value < |users| && Linked(users[r.value], provider, providerId)
    ensures r.None? ==> forall j :: 0 <= j < |users| ==> !Linked(users[j], provider, providerId)
  {
    if users == [] then None
    else if Linked(users[0], provider, providerId) then Some(0)
    else match FindLinked(users[1..], provider, providerId)
      case None => None
      case Some(k) => Some(k + 1)
  }

  predicate Linked(u: User, provider: Provider, providerId: string)
  {
    u.provider == provider && u.providerId == Some(providerId)
  }

  /** The three steps of findOrCreate over the stored users. */
  function FindOrCreateSpec(users: seq<User>, profile: Profile, provider: Provider, newId: UserId,
                            bcrypt: string -> string): (seq<User>, Result<User, UserError>)
  {
    match FindLinked(users, provider, profile.id)
    case Some(i) => (users, Ok(users[i]))
    case None =>
      var email := ProfileEmail(profile);
      var byEmail := if email.Some? && email.value != "" then FindByEmail(users, email.value) else None;
      match byEmail
      case Some(i) =>
        var u := users[i].(provider := provider, providerId := Some(profile.id));
        (users[i := u], Ok(u))
      case None =>
        match NewUser(users, newId, Some(ProfileName(profile)), email, None, provider, Some(profile.id), bcrypt)
        case Ok(u) => (users + [u], Ok(u))
        case Err(e) => (users, Err(e))
  }

  method FindOrCreate(db: Db, profile: Profile, provider: Provider, newId: UserId, bcrypt: string -> string)
    returns (r: Result<User, UserError>)
    modifies db
    ensures (db.users, r) == FindOrCreateSpec(old(db.users), profile, provider, newId, bcrypt)
    ensures db.State() == old(db.State()).(users := db.users)
  {
    var email := ProfileEmail(profile);
    var linked := FindLinked(db.users, provider, profile.id);
    if linked.Some? {
      return Ok(db.users[linked.value]);
    }
    if email.Some? && email.value != "" {
      var found := FindByEmail(db.users, email.value);
      if found.Some? {
        var user := db.users[found.value];
        user := user.(provider := provider);
        user := user.(providerId := Some(profile.id));
        db.users := db.users[found.value := user];
        return Ok(user);
      }
    }
    var created := NewUser(db.users, newId, Some(ProfileName(profile)), email, None, provider, Some(profile.id), bcrypt);
    if created.Ok? {
      db.users := db.users + [created.value];
    }
    r := created;
  }

  /** Step 1: a user already linked to (provider, profile.id) is returned as stored,
      and nothing changes, even when the profile's email belongs to another user. */
  lemma FindOrCreateLinkedWins(users: seq<User>, profile: Profile, provider: Provider, newId: UserId,
                               bcrypt: string -> string, i: nat)
    requires i < |users| && Linked(users[i], provider, profile.id)
    ensures var (users', r) := FindOrCreateSpec(users, profile, provider, newId, bcrypt);
      && users' == users && r.Ok? && r.value in users && Linked(r.value, provider, profile.id)
  {
  }

  /** Step 2: with no linked user and a truthy email that some user has, that user,
      and only that user, is relinked to the provider; no account is created. */
  lemma FindOrCreateRelinks(users: seq<User>, profile: Profile, provider: Provider, newId: UserId,
                            bcrypt: string -> string)
    requires forall j :: 0 <= j < |users| ==> !Linked(users[j], provider, profile.id)
    requires ProfileEmail(profile).Some? && ProfileEmail(profile).value != ""
    requires exists j :: 0 <= j < |users| && users[j].email == NormalizeEmail(ProfileEmail(profile).value)
    ensures var (users', r) := FindOrCreateSpec(users, profile, provider, newId, bcrypt);
      && r.Ok? && |users'| == |users|
      && exists i :: 0 <= i < |users| && users[i].email == NormalizeEmail(ProfileEmail(profile).value)
           && r.value == users[i].(provider := provider, providerId := Some(profile.id))
           && users' == users[i := r.value]
  {
    var i := FindByEmail(users, ProfileEmail(profile).value).value;
    assert users[i].email == NormalizeEmail(ProfileEmail(profile).value);
  }

  /** Step 3: otherwise the only possible change is one new user, named by the
      display name, the username or "Unnamed User", with no password; without an
      email the email validator refuses it. */
  lemma FindOrCreateCreates(users: seq<User>, profile: Profile, provider: Provider, newId: UserId,
                            bcrypt: string -> string)
    requires forall j :: 0 <= j < |users| ==> !Linked(users[j], provider, profile.id)
    requires ProfileEmail(profile).None? || ProfileEmail(profile).value == ""
             || forall j :: 0 <= j < |users| ==> users[j].email != NormalizeEmail(ProfileEmail(profile).value)
    ensures var (users', r) := FindOrCreateSpec(users, profile, provider, newId, bcrypt);
      && (r.Ok? ==>
            && users' == users + [r.value]
            && r.value.id == newId && r.value.name == Trim(ProfileName(profile))
            && r.value.password.None? && r.value.provider == provider && r.value.providerId == Some(profile.id))
      && (r.Err? ==> users' == users)
      && (ProfileEmail(profile).None? ==> r == Err(InvalidUser))
  {
    NewUserSpec(users, newId, Some(ProfileName(profile)), ProfileEmail(profile), None, provider, Some(profile.id), bcrypt);
  }

  /** Whatever path is taken, at most one user is added, no user is removed, and every
      stored user keeps its id and email. */
  lemma FindOrCreateAtMostOne(users: seq<User>, profile: Profile, provider: Provider, newId: UserId,
                              bcrypt: string -> string)
    ensures var (users', r) := FindOrCreateSpec(users, profile, provider, newId, bcrypt);
      && |users| <= |users'| <= |users| + 1
      && forall j :: 0 <= j < |users| ==> users'[j].id == users[j].id && users'[j].email == users[j].email
  {
  }
}

/** The User document rules of server/src/models/User.js that the account handlers
    depend on: the email setters, the field validators, the unique email index and
    the pre-save hook that hashes a local user's password. bcrypt is a parameter. */
module UserModel {
  import opened Common
  import opened PostModel
  import opened ServerStore

  const NameMaxLength: nat := 100
  const PasswordMinLength: nat := 6

  /** The `lowercase: true` and `trim: true` setters of the email path, applied to
      stored values and to query conditions alike. */
  function NormalizeEmail(e: string): string
  {
    Trim(Lower(e))
  }

  /** No character of `s` is an upper-case ASCII letter. */
  predicate NoUpper(s: string)
  {
    forall i :: 0 <= i < |s| ==> !('A' <= s[i] <= 'Z')
  }

  lemma LowerHasNoUpper(s: string)
    ensures NoUpper(Lower(s))
  {
  }

  lemma LowerKeepsNoUpper(s: string)
    requires NoUpper(s)
    ensures Lower(s) == s
  {
  }

  /** A trimmed string is a slice of the original, so it has no upper-case letter
      when the original has none. */
  lemma TrimKeepsNoUpper(s: string)
    requires NoUpper(s)
    ensures NoUpper(Trim(s))
  {
    var a := TrimStart(s);
    TrimStartSpec(s);
    TrimEndSpec(a);
    var t := TrimEnd(a);
    forall i | 0 <= i < |t| ensures !('A' <= t[i] <= 'Z') {
      assert t[i] == a[i] == s[|s| - |a| + i];
    }
  }

  /** Normalising a stored email again changes nothing, so a query with the stored
      value finds the stored value. */
  lemma NormalizeEmailIdempotent(e: string)
    ensures NormalizeEmail(NormalizeEmail(e)) == NormalizeEmail(e)
  {
    var x := Lower(e);
    LowerHasNoUpper(e);
    TrimKeepsNoUpper(x);
    LowerKeepsNoUpper(Trim(x));
    TrimIdempotent(x);
  }

  /** `User.findOne({email})`: the index of the first user whose stored email equals
      the normalised query value. */
  function FindByEmail(users: seq<User>, email: string): (r: Option<nat>)
    ensures r.Some? ==> r.value < |users| && users[r.value].email == NormalizeEmail(email)
    ensures r.Some? ==> forall j :: 0 <= j < r.value ==> users[j].email != NormalizeEmail(email)
    ensures r.None? ==> forall j :: 0 <= j < |users| ==> users[j].email != NormalizeEmail(email)
  {
    FirstWithEmail(users, NormalizeEmail(email))
  }

  /** `User.findOne({ email })` with an email that may be undefined or null. Mongoose
      drops an undefined condition, so the query then matches the first stored user;
      a null condition stays and matches only documents without an email, and every
      stored user has one. */
  function FindOneByEmail(users: seq<User>, email: JsString): (r: Option<nat>)
    ensures r.Some? ==> r.value < |users|
    ensures email.Str? && r.Some? ==> users[r.value].email == NormalizeEmail(email.value)
    ensures email.Str? && r.None? ==> forall j :: 0 <= j < |users| ==> users[j].email != NormalizeEmail(email.value)
    ensures email.Undefined? ==> (r.Some? <==> users != []) && (r.Some? ==> r.value == 0)
    ensures email.Null? ==> r.None?
  {
    match email
    case Str(e) => FindByEmail(users, e)
    case Null => None
    case Undefined => if users == [] then None else Some(0)
  }

  function FirstWithEmail(users: seq<User>, stored: string): (r: Option<nat>)
    ensures r.Some? ==> r.value < |users| && users[r.value].email == stored
    ensures r.Some? ==> forall j :: 0 <= j < r.value ==> users[j].email != stored
    ensures r.None? ==> forall j :: 0 <= j < |users| ==> users[j].email != stored
  {
    if users == [] then None
    else if users[0].email == stored then Some(0)
    else match FirstWithEmail(users[1..], stored)
      case None => None
      case Some(k) => Some(k + 1)
  }

  /** Why `User.create` / `user.save()` of a new document fails: a schema validator
      (name required and at most 100 characters once trimmed, email required, password
      at least 6 characters) or the unique email index. */
  datatype UserError = InvalidUser | DuplicateEmail

  /** The name validators: required (a trimmed empty string is missing) and at most 100 characters. */
  predicate NameValid(name: Option<string>)
  {
    name.Some? && Trim(name.value) != "" && Utf16Length(Trim(name.value)) <= NameMaxLength
  }

  /** The password validator: absent, or at least 6 characters. */
  predicate PasswordValid(password: Option<string>)
  {
    password.None? || Utf16Length(password.value) >= PasswordMinLength
  }

  /** The pre-save hook: a local user's non-empty password is replaced by its bcrypt
      hash; any other provider keeps the value as given. */
  function HashOnSave(provider: Provider, password: Option<string>, bcrypt: string -> string): Option<string>
  {
    if provider == Local && password.Some? && password.value != "" then Some(bcrypt(password.value)) else password
  }

  /** Creating and saving a new User document with the given fields. */
  function NewUser(users: seq<User>, id: UserId, name: Option<string>, email: Option<string>,
                   password: Option<string>, provider: Provider, providerId: Option<string>,
                   bcrypt: string -> string): Result<User, UserError>
  {
    if !NameValid(name) then Err(InvalidUser)
    else if email.None? || NormalizeEmail(email.value) == "" then Err(InvalidUser)
    else if !PasswordValid(password) then Err(InvalidUser)
    else if FindByEmail(users, email.value).Some? then Err(DuplicateEmail)
    else Ok(User(id, Trim(name.value), NormalizeEmail(email.value), HashOnSave(provider, password, bcrypt),
                 provider, providerId, None, None))
  }

  /** A new user is created exactly when every validator passes and the email is not
      taken; it then holds the trimmed name, the normalised email and, for a local
      account, the hash of the password. */
  lemma NewUserSpec(users: seq<User>, id: UserId, name: Option<string>, email: Option<string>,
                    password: Option<string>, provider: Provider, providerId: Option<string>,
                    bcrypt: string -> string)
    ensures var r := NewUser(users, id, name, email, password, provider, providerId, bcrypt);
      && (r.Ok? <==>
            NameValid(name) && email.Some? && NormalizeEmail(email.value) != "" && PasswordValid(password)
            && forall j :: 0 <= j < |users| ==> users[j].email != NormalizeEmail(email.value))
      && (r.Ok? ==>
            && r.value.id == id && r.value.provider == provider && r.value.providerId == providerId
            && 1 <= Utf16Length(r.value.name) <= NameMaxLength && IsTrimmed(r.value.name)
            && r.value.email == NormalizeEmail(email.value)
            && r.value.resetToken.None? && r.value.resetExpires.None?
            && r.value.password == HashOnSave(provider, password, bcrypt))
  {
    var r := NewUser(users, id, name, email, password, provider, providerId, bcrypt);
    if r.Ok? {
      TrimIdempotent(name.value);
    }
  }

  /** `user.isValidPassword(plain)`: false when no password is stored, otherwise the
      bcrypt comparison. */
  function IsValidPassword(u: User, plain: string, bcryptCompare: (string, string) -> bool): bool
  {
    u.password.Some? && u.password.value != "" && bcryptCompare(plain, u.password.value)
  }
}

/** The account form of client/src/pages/Settings.jsx: field edits, the
    notification switches, the validator and the guard before a password change.
    Error messages are named by their translation key; the requests the page sends
    are appended to an outbox and their replies are parameters. */
module Settings {
  import opened Common

  /** The errors the validator and the password handler can show. */
  datatype ErrorCode =
    | NameRequired | EmailRequired | EmailInvalid | PasswordLength | PasswordMismatch
    | CurrentPasswordRequired | IncorrectPassword

  /** What the page sends. */
  datatype Request =
    | UpdateAccount(name: Option<string>, email: Option<string>, username: Option<string>)
    | SavePreferences(prefs: map<string, bool>)
    | ChangePassword(current: Option<string>, newPassword: Option<string>)

  /** The reply to a password change: success, or a failure with its message. */
  datatype PasswordReply = PasswordChanged | PasswordFailed(message: Option<string>)

  /** `formData[key]`: undefined for a field the form does not hold. */
  function Field(form: map<string, string>, key: string): (r: Option<string>)
    ensures r.Some? <==> key in form
  {
    if key in form then Some(form[key]) else None
  }

  /** A character `[^\s@]` accepts. */
  predicate AddressChar(c: char)
  {
    !IsJsSpace(c) && c != '@'
  }

  /** `/^[^\s@]+@[^\s@]+\.[^\s@]+$/`: a non-empty local part, one "@", and a
      domain with a dot that has a character on each side; no whitespace and no
      other "@" anywhere. */
  predicate EmailShape(s: string)
  {
    exists a | 0 < a < |s| ::
      && s[a] == '@'
      && (forall k | 0 <= k < |s| && k != a :: AddressChar(s[k]))
      && exists d | a + 1 < d < |s| - 1 :: s[d] == '.'
  }

  /** validate's newErrors, one rule per field. */
  function ValidationErrors(form: map<string, string>): map<string, ErrorCode>
  {
    var name := Field(form, "name");
    var email := Field(form, "email");
    var np := Field(form, "newPassword");
    var cp := Field(form, "confirmPassword");
    var e0: map<string, ErrorCode> := map[];
    var e1 := if !Truthy(name) then e0["name" := NameRequired] else e0;
    var e2 := if !Truthy(email) then e1["email" := EmailRequired]
              else if !EmailShape(email.value) then e1["email" := EmailInvalid] else e1;
    var e3 := if Truthy(np) && Utf16Length(np.value) < 6 then e2["newPassword" := PasswordLength] else e2;
    if np != cp then e3["confirmPassword" := PasswordMismatch] else e3
  }

  /** Each field's error appears exactly when its rule fails, nothing else is ever
      reported, and the form is valid exactly when all four rules pass; two empty
      passwords pass. */
  lemma ValidationErrorsSpec(form: map<string, string>)
    ensures var e := ValidationErrors(form);
      && e.Keys <= {"name", "email", "newPassword", "confirmPassword"}
      && ("name" in e <==> !Truthy(Field(form, "name")))
      && ("name" in e ==> e["name"] == NameRequired)
      && ("email" in e <==> !Truthy(Field(form, "email")) || !EmailShape(form["email"]))
      && ("email" in e ==> e["email"] == (if Truthy(Field(form, "email")) then EmailInvalid else EmailRequired))
      && ("newPassword" in e <==> Truthy(Field(form, "newPassword")) && Utf16Length(form["newPassword"]) < 6)
      && ("confirmPassword" in e <==> Field(form, "newPassword") != Field(form, "confirmPassword"))
      && (|e| == 0 <==>
            && Truthy(Field(form, "name")) && Truthy(Field(form, "email")) && EmailShape(form["email"])
            && !(Truthy(Field(form, "newPassword")) && Utf16Length(form["newPassword"]) < 6)
            && Field(form, "newPassword") == Field(form, "confirmPassword"))
    ensures "name" in form && "email" in form && form["name"] != "" && EmailShape(form["email"])
            && Field(form, "newPassword") == Some("") && Field(form, "confirmPassword") == Some("") ==>
            ValidationErrors(form) == map[]
  {
    var e := ValidationErrors(form);
    if |e| == 0 {
      assert e == map[];
    }
  }

  /** The errors the page shows once `validate` has run on a form. */
  function Shown(form: map<string, string>): map<string, Option<ErrorCode>>
  {
    map k | k in ValidationErrors(form) :: Some(ValidationErrors(form)[k])
  }

  /** The page's state. */
  class SettingsPage {
    var form: map<string, string>
    /** An error entry set to null by an edit stays in the map as `None`. */
    var errors: map<string, Option<ErrorCode>>
    var prefs: map<string, bool>
    var outbox: seq<Request>

    /** The initial form, from the signed-in user's name, username and email. */
    constructor(name: Option<string>, username: Option<string>, email: Option<string>)
      ensures form == map["name" := OrElse(name, ""), "username" := OrElse(username, ""),
                          "email" := OrElse(email, ""), "currentPassword" := "",
                          "newPassword" := "", "confirmPassword" := ""]
      ensures errors == map[] && outbox == []
      ensures prefs == map["email" := true, "push" := true, "mentions" := true, "messages" := true,
                           "marketing" := true]
    {
      form := map["name" := OrElse(name, ""), "username" := OrElse(username, ""),
                  "email" := OrElse(email, ""), "currentPassword" := "",
                  "newPassword" := "", "confirmPassword" := ""];
      errors := map[];
      prefs := map["email" := true, "push" := true, "mentions" := true, "messages" := true,
                   "marketing" := true];
      outbox := [];
    }

    /** The effect that copies the signed-in user's saved preferences, when there
        are any, over the defaults. */
    method LoadPreferences(saved: Option<map<string, bool>>)
      modifies this
      ensures prefs == if saved.Some? then saved.value else old(prefs)
      ensures form == old(form) && errors == old(errors) && outbox == old(outbox)
    {
      if saved.Some? {
        prefs := saved.value;
      }
    }

    /** handleChange: the named field takes the value, and its error, if one is
        shown, is cleared; no other field or error changes. */
    method HandleChange(name: string, value: string)
      modifies this
      ensures form == old(form)[name := value]
      ensures errors == if name in old(errors) && old(errors)[name].Some? then old(errors)[name := None] else old(errors)
      ensures prefs == old(prefs) && outbox == old(outbox)
    {
      form := form[name := value];
      if name in errors && errors[name].Some? {
        errors := errors[name := None];
      }
    }

    /** handleNotificationChange: the switch flips (a missing one becomes true) and
        the new preferences are saved at once. */
    method HandleNotificationChange(kind: string)
      modifies this
      ensures prefs == old(prefs)[kind := !(kind in old(prefs) && old(prefs)[kind])]
      ensures outbox == old(outbox) + [SavePreferences(prefs)]
      ensures form == old(form) && errors == old(errors)
    {
      var flipped := !(kind in prefs && prefs[kind]);
      prefs := prefs[kind := flipped];
      outbox := outbox + [SavePreferences(prefs)];
    }

    /** validate: the errors shown become exactly the validator's, and the result
        says whether there were none. */
    method Validate() returns (ok: bool)
      modifies this
      ensures errors == Shown(form)
      ensures ok <==> ValidationErrors(form) == map[]
      ensures ok ==> errors == map[]
      ensures form == old(form) && prefs == old(prefs) && outbox == old(outbox)
    {
      var e := ValidationErrors(form);
      errors := map k | k in e :: Some(e[k]);
      ok := |e| == 0;
      if !ok {
        assert e != map[];
      } else {
        assert e == map[];
      }
    }

    /** handleSubmit: the validator's errors are shown, and a valid form sends the
        name, email and username. */
    method HandleSubmit()
      modifies this
      ensures var ok := ValidationErrors(old(form)) == map[];
        outbox == old(outbox) + (if ok then [UpdateAccount(Field(form, "name"), Field(form, "email"),
                                                           Field(form, "username"))] else [])
      ensures errors == Shown(old(form))
      ensures form == old(form) && prefs == old(prefs)
    {
      var ok := Validate();
      if ok {
        outbox := outbox + [UpdateAccount(Field(form, "name"), Field(form, "email"), Field(form, "username"))];
      }
    }

    /** handlePasswordChange. An invalid form shows the validator's errors and sends
        nothing. After validation passes, an empty current password puts back the
        errors the page showed before validating, plus currentPasswordRequired, and
        sends nothing. Otherwise the change is sent; on success the three password
        fields are emptied and no error is shown, and a failure whose message names
        an incorrect current password shows that error, again over the errors from
        before, while any other failure shows none. */
    method HandlePasswordChange(reply: PasswordReply)
      modifies this
      ensures var before := old(errors);
        var ok := ValidationErrors(old(form)) == map[];
        var current := Field(old(form), "currentPassword");
        var incorrect := reply.PasswordFailed? && reply.message.Some?
                         && Contains(reply.message.value, "Current password is incorrect");
        && (!ok ==> outbox == old(outbox) && form == old(form) && errors == Shown(old(form)))
        && (ok && !Truthy(current) ==>
              outbox == old(outbox) && form == old(form)
              && errors == before["currentPassword" := Some(CurrentPasswordRequired)])
        && (ok && Truthy(current) ==>
              && outbox == old(outbox) + [ChangePassword(current, Field(old(form), "newPassword"))]
              && (reply.PasswordChanged? ==>
                    form == old(form)["currentPassword" := ""]["newPassword" := ""]["confirmPassword" := ""]
                    && errors == map[])
              && (reply.PasswordFailed? ==> form == old(form))
              && (reply.PasswordFailed? && incorrect ==> errors == before["currentPassword" := Some(IncorrectPassword)])
              && (reply.PasswordFailed? && !incorrect ==> errors == map[]))
      ensures prefs == old(prefs)
    {
      var before := errors;
      var ok := Validate();
      if !ok {
        return;
      }
      var current := Field(form, "currentPassword");
      if !Truthy(current) {
        errors := before["currentPassword" := Some(CurrentPasswordRequired)];
        return;
      }
      outbox := outbox + [ChangePassword(current, Field(form, "newPassword"))];
      match reply {
        case PasswordChanged =>
          form := form["currentPassword" := ""]["newPassword" := ""]["confirmPassword" := ""];
        case PasswordFailed(message) =>
          if message.Some? && Contains(message.value, "Current password is incorrect") {
            errors := before["currentPassword" := Some(IncorrectPassword)];
          }
      }
    }
  }

  /** Flipping the same switch twice restores every preference; the two saves send
      the flipped and then the restored preferences. */
  method FlipTwice(page: SettingsPage, kind: string)
    requires kind in page.prefs
    modifies page
    ensures page.prefs == old(page.prefs)
    ensures page.outbox == old(page.outbox) + [SavePreferences(old(page.prefs)[kind := !old(page.prefs)[kind]]),
                                               SavePreferences(old(page.prefs))]
  {
    page.HandleNotificationChange(kind);
    page.HandleNotificationChange(kind);
  }
}

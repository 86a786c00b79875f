/** The profile form of client/src/pages/ViewProfile.jsx. It builds the same form
    as the edit page but routes edits by a fixed list of link names and sends a
    fixed list of seven fields instead of walking the form. */
module ViewProfile {
  import opened Common
  import opened Profile
  import opened EditProfile

  /** The form before the user is known: the seven inputs, all empty. */
  function EmptyForm(): seq<(string, FormValue)>
  {
    Shaped(["", "", "", "", "", "", ""])
  }

  /** handleChange: "twitter", "linkedin" and "github" update socialLinks, spread
      from what it held (a missing one spreads as no entries, a string as its
      characters); any other name updates a top-level field. */
  function ChangeByName(f: seq<(string, FormValue)>, name: string, value: string): seq<(string, FormValue)>
  {
    if name in LinkNames then
      var sl := Lookup(f, "socialLinks");
      var spread := if sl.None? then [] else EntriesOf(sl.value);
      Put(f, "socialLinks", Links(Put(spread, name, value)))
    else Put(f, name, Text(value))
  }

  /** `String(form[key])` for a top-level field: "undefined" when it is missing. */
  function FieldText(f: seq<(string, FormValue)>, key: string): string
  {
    var v := Lookup(f, key);
    if v.None? then "undefined" else AsText(v.value)
  }

  /** `String(form.socialLinks[key])`: "undefined" when the link is missing or
      socialLinks is a string. */
  function LinkText(sl: FormValue, key: string): string
  {
    match sl
    case Text(_) => "undefined"
    case Links(ls) => var v := Lookup(ls, key); if v.None? then "undefined" else v.value
  }

  /** handleSubmit's seven appends, in their order; `None` when socialLinks is
      missing, where reading a link throws and nothing is sent. */
  function TextParts(f: seq<(string, FormValue)>): Option<seq<Part>>
  {
    var sl := Lookup(f, "socialLinks");
    if sl.None? then None
    else Some([TextPart("name", FieldText(f, "name")), TextPart("bio", FieldText(f, "bio")),
               TextPart("location", FieldText(f, "location")), TextPart("website", FieldText(f, "website")),
               TextPart("socialLinks[twitter]", LinkText(sl.value, "twitter")),
               TextPart("socialLinks[linkedin]", LinkText(sl.value, "linkedin")),
               TextPart("socialLinks[github]", LinkText(sl.value, "github"))])
  }

  /** Every form this page can hold keeps socialLinks, so the body is always sent:
      an edit never removes it, and no edit except one named "socialLinks" makes
      it a string. */
  lemma ChangeKeepsLinks(f: seq<(string, FormValue)>, name: string, value: string)
    requires Lookup(f, "socialLinks").Some?
    ensures Lookup(ChangeByName(f, name, value), "socialLinks").Some?
    ensures TextParts(ChangeByName(f, name, value)).Some?
    ensures name != "socialLinks" && Lookup(f, "socialLinks").value.Links? ==>
      Lookup(ChangeByName(f, name, value), "socialLinks").value.Links?
  {
    var r := ChangeByName(f, name, value);
    if name in LinkNames {
      assert Lookup(r, "socialLinks").Some?;
    } else if name == "socialLinks" {
      assert Lookup(r, "socialLinks") == Some(Text(value));
    } else {
      assert Lookup(r, "socialLinks") == Lookup(f, "socialLinks");
    }
  }

  /** On a shaped form this page's edit of any of the seven inputs agrees with the
      edit page's. */
  lemma ChangeAgrees(vals: seq<string>, i: nat, v: string)
    requires |vals| == 7 && i < 7
    ensures ChangeByName(Shaped(vals), InputNames[i], v) == Shaped(vals[i := v])
    ensures ChangeByName(Shaped(vals), InputNames[i], v) == EditProfile.Change(Shaped(vals), InputNames[i], v)
  {
    ChangeKeepsShape(vals, i, v);
    var f := Shaped(vals);
    var ls := LinksOf(vals);
    LookupAt(f, "socialLinks", 4);
    if i < 4 {
      assert InputNames[i] !in LinkNames;
      PutAt(f, InputNames[i], Text(v), i);
      assert f[i := (InputNames[i], Text(v))] == Shaped(vals[i := v]);
    } else {
      assert InputNames[i] in LinkNames;
      PutAt(ls, InputNames[i], v, i - 4);
      PutAt(f, "socialLinks", Links(ls[i - 4 := (InputNames[i], v)]), 4);
      assert ls[i - 4 := (InputNames[i], v)] == LinksOf(vals[i := v]);
      assert f[4 := ("socialLinks", Links(LinksOf(vals[i := v])))] == Shaped(vals[i := v]);
    }
  }

  /** For a shaped form the body is the seven inputs under the names the edit page
      also uses, in the same order. */
  lemma ShapedTextParts(vals: seq<string>)
    requires |vals| == 7
    ensures TextParts(Shaped(vals)) == Some(seq(7, i requires 0 <= i < 7 => TextPart(PartNames[i], vals[i])))
    ensures TextParts(Shaped(vals)) == Some(FormParts(Shaped(vals)))
  {
    var f := Shaped(vals);
    var ls := LinksOf(vals);
    LookupAt(f, "socialLinks", 4);
    forall i | 0 <= i < 4
      ensures Lookup(f, FieldNames[i]) == Some(Text(vals[i]))
    {
      LookupAt(f, FieldNames[i], i);
    }
    forall i | 0 <= i < 3
      ensures Lookup(ls, LinkNames[i]) == Some(vals[4 + i])
    {
      LookupAt(ls, LinkNames[i], i);
    }
    assert FieldText(f, "name") == vals[0] && FieldText(f, "bio") == vals[1];
    assert FieldText(f, "location") == vals[2] && FieldText(f, "website") == vals[3];
    var sl := Links(ls);
    assert LinkText(sl, "twitter") == vals[4] && LinkText(sl, "linkedin") == vals[5];
    assert LinkText(sl, "github") == vals[6];
    var body := [TextPart("name", vals[0]), TextPart("bio", vals[1]), TextPart("location", vals[2]),
                 TextPart("website", vals[3]), TextPart("socialLinks[twitter]", vals[4]),
                 TextPart("socialLinks[linkedin]", vals[5]), TextPart("socialLinks[github]", vals[6])];
    assert TextParts(f) == Some(body);
    assert PartNames == ["name", "bio", "location", "website", "socialLinks[twitter]", "socialLinks[linkedin]",
                         "socialLinks[github]"];
    assert body == seq(7, i requires 0 <= i < 7 => TextPart(PartNames[i], vals[i]));
    ShapedFormParts(vals);
  }

  /** A run of edits, each naming one of the seven inputs by its position. */
  function EditAll(f: seq<(string, FormValue)>, edits: seq<(nat, string)>): seq<(string, FormValue)>
    requires forall k :: 0 <= k < |edits| ==> edits[k].0 < 7
  {
    if edits == [] then f
    else ChangeByName(EditAll(f, edits[..|edits| - 1]), InputNames[edits[|edits| - 1].0], edits[|edits| - 1].1)
  }

  /** The same run of edits on the edit page. */
  function EditPageAll(f: seq<(string, FormValue)>, edits: seq<(nat, string)>): seq<(string, FormValue)>
    requires forall k :: 0 <= k < |edits| ==> edits[k].0 < 7
  {
    if edits == [] then f
    else EditProfile.Change(EditPageAll(f, edits[..|edits| - 1]), InputNames[edits[|edits| - 1].0],
                            edits[|edits| - 1].1)
  }

  /** The seven values after a run of edits. */
  function Applied(vals: seq<string>, edits: seq<(nat, string)>): (r: seq<string>)
    requires |vals| == 7 && forall k :: 0 <= k < |edits| ==> edits[k].0 < 7
    ensures |r| == 7
  {
    if edits == [] then vals
    else Applied(vals, edits[..|edits| - 1])[edits[|edits| - 1].0 := edits[|edits| - 1].1]
  }

  /** Starting from the same shaped form, both pages hold the same form after any
      run of edits to the seven inputs, and send the same seven fields. */
  lemma {:induction false} BothPagesSendTheSame(vals: seq<string>, edits: seq<(nat, string)>)
    requires |vals| == 7 && forall k :: 0 <= k < |edits| ==> edits[k].0 < 7
    ensures EditAll(Shaped(vals), edits) == Shaped(Applied(vals, edits))
    ensures EditPageAll(Shaped(vals), edits) == Shaped(Applied(vals, edits))
    ensures TextParts(EditAll(Shaped(vals), edits)) == Some(FormParts(EditPageAll(Shaped(vals), edits)))
  {
    if edits != [] {
      var init := edits[..|edits| - 1];
      var last := edits[|edits| - 1];
      BothPagesSendTheSame(vals, init);
      ChangeAgrees(Applied(vals, init), last.0, last.1);
    }
    ShapedTextParts(Applied(vals, edits));
  }

  /** The page's state. */
  class ViewProfilePage {
    var form: seq<(string, FormValue)>
    var profileFile: Option<string>
    var bannerFile: Option<string>

    /** The empty seven-input form and no files. */
    constructor()
      ensures form == EmptyForm() && profileFile.None? && bannerFile.None?
    {
      form := EmptyForm();
      profileFile := None;
      bannerFile := None;
    }

    /** The effect that fills the form once the user is known. */
    method Init(u: Option<ProfileUser>)
      modifies this
      ensures form == (if u.Some? then InitForm(u.value) else old(form))
      ensures profileFile == old(profileFile) && bannerFile == old(bannerFile)
    {
      if u.Some? {
        form := InitForm(u.value);
      }
    }

    /** handleChange. */
    method HandleChange(name: string, value: string)
      modifies this
      ensures form == ChangeByName(old(form), name, value)
      ensures profileFile == old(profileFile) && bannerFile == old(bannerFile)
    {
      form := ChangeByName(form, name, value);
    }

    /** handleFileChange: the chosen file of the named kind; other kinds are
        ignored. */
    method HandleFileChange(kind: string, file: Option<string>)
      modifies this
      ensures profileFile == (if kind == "profile" then file else old(profileFile))
      ensures bannerFile == (if kind == "banner" then file else old(bannerFile))
      ensures form == old(form)
    {
      if kind == "profile" {
        profileFile := file;
      } else if kind == "banner" {
        bannerFile := file;
      }
    }

    /** handleSubmit's body: the seven fields, then the chosen files; `None` when
        reading the links throws. */
    method Submit() returns (body: Option<seq<Part>>)
      ensures body == (if TextParts(form).None? then None
                       else Some(TextParts(form).value + FileParts(profileFile, bannerFile)))
    {
      var parts := TextParts(form);
      if parts.None? {
        return None;
      }
      body := Some(parts.value + FileParts(profileFile, bannerFile));
    }
  }
}

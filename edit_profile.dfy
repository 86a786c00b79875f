/** The edit form of client/src/pages/EditProfile.jsx: the form object built from the
    user, where each edit goes, the chosen image files, and the FormData the submit
    sends. A JavaScript object is a list of (key, value) entries in insertion order,
    which is the order `Object.entries` returns. */
module EditProfile {
  import opened Common
  import opened Profile

  /** A value of the form object: a string, or the nested socialLinks object. */
  datatype FormValue = Text(s: string) | Links(links: seq<(string, string)>)

  /** One field of the request body: a text field or a file. */
  datatype Part = TextPart(name: string, value: string) | FilePart(name: string, file: string)

  function Keys<V>(xs: seq<(string, V)>): (r: seq<string>)
    ensures |r| == |xs| && forall i :: 0 <= i < |xs| ==> r[i] == xs[i].0
  {
    seq(|xs|, i requires 0 <= i < |xs| => xs[i].0)
  }

  /** `obj[k]`: the value of the first entry with that key. */
  function Lookup<V>(xs: seq<(string, V)>, k: string): (r: Option<V>)
    ensures r.Some? <==> k in Keys(xs)
  {
    if xs == [] then None else if xs[0].0 == k then Some(xs[0].1) else Lookup(xs[1..], k)
  }

  /** `{...obj, [k]: v}`: an existing key keeps its place and takes the value, a new
      key goes last. */
  function Put<V>(xs: seq<(string, V)>, k: string, v: V): (r: seq<(string, V)>)
    ensures Lookup(r, k) == Some(v)
    ensures forall j :: j != k ==> Lookup(r, j) == Lookup(xs, j)
    ensures Keys(r) == if k in Keys(xs) then Keys(xs) else Keys(xs) + [k]
  {
    if xs == [] then [(k, v)]
    else if xs[0].0 == k then [(k, v)] + xs[1..]
    else
      var rest := Put(xs[1..], k, v);
      assert Keys(xs) == [xs[0].0] + Keys(xs[1..]);
      [xs[0]] + rest
  }

  /** The form the effect builds from the signed-in user, with "" for every missing
      field. */
  function InitForm(u: ProfileUser): seq<(string, FormValue)>
  {
    var sl := if u.socialLinks.Some? then u.socialLinks.value else SocialLinks(None, None, None);
    [("name", Text(OrElse(u.name, ""))), ("bio", Text(OrElse(u.bio, ""))),
     ("location", Text(OrElse(u.location, ""))), ("website", Text(OrElse(u.website, ""))),
     ("socialLinks", Links([("twitter", OrElse(sl.twitter, "")), ("linkedin", OrElse(sl.linkedin, "")),
                            ("github", OrElse(sl.github, ""))]))]
  }

  /** The four text inputs of the form, in order. */
  const FieldNames: seq<string> := ["name", "bio", "location", "website"]

  /** The three link inputs, in order. */
  const LinkNames: seq<string> := ["twitter", "linkedin", "github"]

  /** The seven inputs the page shows. */
  const InputNames: seq<string> := FieldNames + LinkNames

  /** The nested links of a shaped form holding `vals`. */
  function LinksOf(vals: seq<string>): (r: seq<(string, string)>)
    requires |vals| == 7
    ensures |r| == 3 && forall i :: 0 <= i < 3 ==> r[i] == (LinkNames[i], vals[4 + i])
  {
    [(LinkNames[0], vals[4]), (LinkNames[1], vals[5]), (LinkNames[2], vals[6])]
  }

  /** The form in the shape both profile pages build: the four text fields and then
      socialLinks with the three links, holding the values of the seven inputs in
      the order of InputNames. */
  function Shaped(vals: seq<string>): (r: seq<(string, FormValue)>)
    requires |vals| == 7
    ensures |r| == 5 && r[4] == ("socialLinks", Links(LinksOf(vals)))
    ensures forall i :: 0 <= i < 4 ==> r[i] == (FieldNames[i], Text(vals[i]))
  {
    [(FieldNames[0], Text(vals[0])), (FieldNames[1], Text(vals[1])), (FieldNames[2], Text(vals[2])),
     (FieldNames[3], Text(vals[3])), ("socialLinks", Links(LinksOf(vals)))]
  }

  /** The initial form has that shape, holding the user's values or "". */
  lemma InitFormShaped(u: ProfileUser)
    ensures var sl := if u.socialLinks.Some? then u.socialLinks.value else SocialLinks(None, None, None);
      InitForm(u) == Shaped([OrElse(u.name, ""), OrElse(u.bio, ""), OrElse(u.location, ""), OrElse(u.website, ""),
                             OrElse(sl.twitter, ""), OrElse(sl.linkedin, ""), OrElse(sl.github, "")])
  {
  }

  /** handleChange: a name that is a key of socialLinks updates that link, any other
      name a top-level field. While socialLinks is missing (before the form is filled)
      or is a string, the `in` test throws and nothing changes. */
  function Change(f: seq<(string, FormValue)>, name: string, value: string): seq<(string, FormValue)>
  {
    var sl := Lookup(f, "socialLinks");
    if sl.None? || sl.value.Text? then f
    else if name in Keys(sl.value.links) then
      Put(f, "socialLinks", Links(Put(sl.value.links, name, value)))
    else Put(f, name, Text(value))
  }

  /** A link edit changes only that link, and any other edit only its own field. */
  lemma ChangeRouting(f: seq<(string, FormValue)>, name: string, value: string)
    requires Lookup(f, "socialLinks").Some? && Lookup(f, "socialLinks").value.Links?
    ensures var ls := Lookup(f, "socialLinks").value.links;
      var r := Change(f, name, value);
      && Keys(r) == (if name in Keys(ls) || name in Keys(f) then Keys(f) else Keys(f) + [name])
      && (name in Keys(ls) ==>
            Lookup(r, "socialLinks") == Some(Links(Put(ls, name, value)))
            && Lookup(Put(ls, name, value), name) == Some(value)
            && (forall j :: j != "socialLinks" ==> Lookup(r, j) == Lookup(f, j)))
      && (name !in Keys(ls) ==>
            Lookup(r, name) == Some(Text(value)) && (forall j :: j != name ==> Lookup(r, j) == Lookup(f, j)))
  {
    assert "socialLinks" in Keys(f);
  }

  /** Edits made while the form is still empty are lost. */
  lemma ChangeBeforeFill(name: string, value: string)
    ensures Change([], name, value) == []
  {
  }

  /** Put on a key first held at `i` replaces that entry in place. */
  lemma {:induction false} PutAt<V>(xs: seq<(string, V)>, k: string, v: V, i: nat)
    requires i < |xs| && xs[i].0 == k && forall j :: 0 <= j < i ==> xs[j].0 != k
    ensures Put(xs, k, v) == xs[i := (k, v)]
  {
    if i == 0 {
      assert Put(xs, k, v) == [(k, v)] + xs[1..];
    } else {
      assert xs[0].0 != k;
      PutAt(xs[1..], k, v, i - 1);
      assert Put(xs, k, v) == [xs[0]] + Put(xs[1..], k, v);
      assert [xs[0]] + xs[1..][i - 1 := (k, v)] == xs[i := (k, v)];
    }
  }

  /** Lookup of a key first held at `i` finds that entry's value. */
  lemma {:induction false} LookupAt<V>(xs: seq<(string, V)>, k: string, i: nat)
    requires i < |xs| && xs[i].0 == k && forall j :: 0 <= j < i ==> xs[j].0 != k
    ensures Lookup(xs, k) == Some(xs[i].1)
  {
    if i > 0 {
      assert xs[0].0 != k;
      LookupAt(xs[1..], k, i - 1);
    }
  }

  /** Editing a link of a shaped form replaces that link in place. */
  lemma ChangeLinkInShape(f: seq<(string, FormValue)>, ls: seq<(string, string)>, i: nat, v: string)
    requires |f| == 5 && f[4] == ("socialLinks", Links(ls)) && forall j :: 0 <= j < 4 ==> f[j].0 != "socialLinks"
    requires i < |ls| && forall j :: 0 <= j < i ==> ls[j].0 != ls[i].0
    ensures Change(f, ls[i].0, v) == f[4 := ("socialLinks", Links(ls[i := (ls[i].0, v)]))]
  {
    LookupAt(f, "socialLinks", 4);
    assert ls[i].0 in Keys(ls);
    PutAt(ls, ls[i].0, v, i);
    PutAt(f, "socialLinks", Links(ls[i := (ls[i].0, v)]), 4);
  }

  /** Editing a field that is not a link replaces that field in place. */
  lemma ChangeFieldInShape(f: seq<(string, FormValue)>, ls: seq<(string, string)>, i: nat, v: string)
    requires |f| == 5 && f[4] == ("socialLinks", Links(ls)) && forall j :: 0 <= j < 4 ==> f[j].0 != "socialLinks"
    requires i < 4 && f[i].0 !in Keys(ls) && forall j :: 0 <= j < i ==> f[j].0 != f[i].0
    ensures Change(f, f[i].0, v) == f[i := (f[i].0, Text(v))]
  {
    LookupAt(f, "socialLinks", 4);
    PutAt(f, f[i].0, Text(v), i);
  }

  /** Editing any of the seven inputs of a shaped form keeps the shape and changes
      that input's value only. */
  lemma ChangeKeepsShape(vals: seq<string>, i: nat, v: string)
    requires |vals| == 7 && i < 7
    ensures Change(Shaped(vals), InputNames[i], v) == Shaped(vals[i := v])
  {
    var f := Shaped(vals);
    var ls := LinksOf(vals);
    if i < 4 {
      assert Keys(ls) == LinkNames;
      ChangeFieldInShape(f, ls, i, v);
      assert f[i := (InputNames[i], Text(v))] == Shaped(vals[i := v]);
    } else {
      ChangeLinkInShape(f, ls, i - 4, v);
      assert ls[i - 4 := (InputNames[i], v)] == LinksOf(vals[i := v]);
      assert f[4 := ("socialLinks", Links(LinksOf(vals[i := v])))] == Shaped(vals[i := v]);
    }
  }

  /** A shaped form lists the four fields and then socialLinks, in that order, and
      reading any of the seven inputs back from it gives the value it holds. */
  lemma ShapedReadsBack(vals: seq<string>, i: nat)
    requires |vals| == 7 && i < 7
    ensures Keys(Shaped(vals)) == FieldNames + ["socialLinks"] && Keys(LinksOf(vals)) == LinkNames
    ensures i < 4 ==> Lookup(Shaped(vals), InputNames[i]) == Some(Text(vals[i]))
    ensures Lookup(Shaped(vals), "socialLinks") == Some(Links(LinksOf(vals)))
    ensures 4 <= i ==> Lookup(LinksOf(vals), InputNames[i]) == Some(vals[i])
  {
    var f := Shaped(vals);
    LookupAt(f, "socialLinks", 4);
    if i < 4 {
      LookupAt(f, InputNames[i], i);
    } else {
      LookupAt(LinksOf(vals), InputNames[i], i - 4);
    }
  }

  /** The digits of a natural number. */
  function Decimal(n: nat): (r: string)
    ensures r != ""
  {
    if n < 10 then [('0' as int + n) as char] else Decimal(n / 10) + [('0' as int + n % 10) as char]
  }

  /** `Object.entries(value)`: the links of the nested object, or, for a string,
      its characters under their indices. */
  function EntriesOf(v: FormValue): seq<(string, string)>
  {
    match v
    case Links(ls) => ls
    case Text(s) => seq(|s|, i requires 0 <= i < |s| => (Decimal(i), [s[i]]))
  }

  /** `formData.append(key, value)` converts the value to a string. */
  function AsText(v: FormValue): string
  {
    match v
    case Text(s) => s
    case Links(_) => "[object Object]"
  }

  /** The parts of the nested entries, each under "socialLinks[k]". */
  function LinkParts(ls: seq<(string, string)>): seq<Part>
  {
    if ls == [] then []
    else LinkParts(ls[..|ls| - 1]) + [TextPart("socialLinks[" + ls[|ls| - 1].0 + "]", ls[|ls| - 1].1)]
  }

  /** The parts of one entry of the form. */
  function EntryParts(e: (string, FormValue)): seq<Part>
  {
    if e.0 == "socialLinks" then LinkParts(EntriesOf(e.1)) else [TextPart(e.0, AsText(e.1))]
  }

  /** The text parts of the whole form, entry by entry. */
  function FormParts(f: seq<(string, FormValue)>): seq<Part>
  {
    if f == [] then [] else FormParts(f[..|f| - 1]) + EntryParts(f[|f| - 1])
  }

  /** The files, each only when one is chosen. */
  function FileParts(profileFile: Option<string>, bannerFile: Option<string>): seq<Part>
  {
    (if profileFile.Some? then [FilePart("profilePicture", profileFile.value)] else []) +
    (if bannerFile.Some? then [FilePart("bannerImage", bannerFile.value)] else [])
  }

  /** The names the seven inputs are sent under. */
  const PartNames: seq<string> :=
    FieldNames + ["socialLinks[twitter]", "socialLinks[linkedin]", "socialLinks[github]"]

  /** For a form of the usual shape the body is the four fields under their names
      and the three links under "socialLinks[...]", in input order. */
  lemma ShapedFormParts(vals: seq<string>)
    requires |vals| == 7
    ensures FormParts(Shaped(vals)) == seq(7, i requires 0 <= i < 7 => TextPart(PartNames[i], vals[i]))
  {
    var f := Shaped(vals);
    var ls := LinksOf(vals);
    var t := TextPart(PartNames[4], vals[4]);
    var l := TextPart(PartNames[5], vals[5]);
    var g := TextPart(PartNames[6], vals[6]);
    assert "socialLinks[" + "twitter" + "]" == PartNames[4];
    assert "socialLinks[" + "linkedin" + "]" == PartNames[5];
    assert "socialLinks[" + "github" + "]" == PartNames[6];
    assert ls[..1][..0] == [] && ls[..2][..1] == ls[..1] && ls[..3][..2] == ls[..2] && ls[..3] == ls;
    assert LinkParts(ls[..1]) == [t];
    assert LinkParts(ls[..2]) == [t, l];
    assert LinkParts(ls) == [t, l, g];
    assert f[..1][..0] == [] && f[..2][..1] == f[..1] && f[..3][..2] == f[..2] && f[..4][..3] == f[..3]
      && f[..5][..4] == f[..4] && f[..5] == f;
    assert FormParts(f[..1]) == [TextPart("name", vals[0])];
    assert FormParts(f[..2]) == [TextPart("name", vals[0]), TextPart("bio", vals[1])];
    assert FormParts(f[..3]) == [TextPart("name", vals[0]), TextPart("bio", vals[1]), TextPart("location", vals[2])];
    assert FormParts(f[..4]) == [TextPart("name", vals[0]), TextPart("bio", vals[1]), TextPart("location", vals[2]),
                                 TextPart("website", vals[3])];
  }

  /** The page's state. */
  class EditProfilePage {
    var form: seq<(string, FormValue)>
    var profileFile: Option<string>
    var bannerFile: Option<string>

    /** The empty form before the user is known. */
    constructor()
      ensures form == [] && profileFile.None? && bannerFile.None?
    {
      form := [];
      profileFile := None;
      bannerFile := None;
    }

    /** The effect that fills the form once the user is known. */
    method Init(u: Option<ProfileUser>)
      modifies this
      ensures form == (if u.Some? then InitForm(u.value) else old(form))
      ensures profileFile == old(profileFile) && bannerFile == old(bannerFile)
    {
      if u.Some? {
        form := InitForm(u.value);
      }
    }

    /** handleChange. */
    method HandleChange(name: string, value: string)
      modifies this
      ensures form == Change(old(form), name, value)
      ensures profileFile == old(profileFile) && bannerFile == old(bannerFile)
    {
      form := Change(form, name, value);
    }

    /** handleFileChange: the chosen file of the named kind; other kinds are
        ignored. */
    method HandleFileChange(kind: string, file: Option<string>)
      modifies this
      ensures profileFile == (if kind == "profile" then file else old(profileFile))
      ensures bannerFile == (if kind == "banner" then file else old(bannerFile))
      ensures form == old(form)
    {
      if kind == "profile" {
        profileFile := file;
      } else if kind == "banner" {
        bannerFile := file;
      }
    }

    /** removeFile: clears the named file only. */
    method RemoveFile(kind: string)
      modifies this
      ensures profileFile == (if kind == "profile" then None else old(profileFile))
      ensures bannerFile == (if kind == "banner" then None else old(bannerFile))
      ensures form == old(form)
    {
      if kind == "profile" {
        profileFile := None;
      } else if kind == "banner" {
        bannerFile := None;
      }
    }

    /** handleSubmit's body: every entry of the form in order, the nested links
        flattened, then the chosen files. */
    method Submit() returns (parts: seq<Part>)
      ensures parts == FormParts(form) + FileParts(profileFile, bannerFile)
    {
      parts := [];
      var i := 0;
      while i < |form|
        invariant 0 <= i <= |form|
        invariant parts == FormParts(form[..i])
      {
        assert form[..i + 1][..i] == form[..i];
        var key := form[i].0;
        if key == "socialLinks" {
          var ls := EntriesOf(form[i].1);
          var j := 0;
          while j < |ls|
            invariant 0 <= j <= |ls|
            invariant parts == FormParts(form[..i]) + LinkParts(ls[..j])
          {
            assert ls[..j + 1][..j] == ls[..j];
            parts := parts + [TextPart("socialLinks[" + ls[j].0 + "]", ls[j].1)];
            j := j + 1;
          }
          assert ls[..|ls|] == ls;
        } else {
          parts := parts + [TextPart(key, AsText(form[i].1))];
        }
        i := i + 1;
      }
      assert form[..|form|] == form;
      if profileFile.Some? {
        parts := parts + [FilePart("profilePicture", profileFile.value)];
      }
      if bannerFile.Some? {
        parts := parts + [FilePart("bannerImage", bannerFile.value)];
      }
    }
  }
}

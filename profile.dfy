/** The profile card of client/src/pages/Profile.jsx: the link a website or social
    handle becomes, how the website is displayed, when the "no social links" note
    shows, and the letter of the fallback avatar. */
module Profile {
  import opened Common

  /** The three social links a user may have. */
  datatype SocialLinks = SocialLinks(twitter: Option<string>, linkedin: Option<string>, github: Option<string>)

  /** The profile fields the pages read. */
  datatype ProfileUser = ProfileUser(
    name: Option<string>, bio: Option<string>, location: Option<string>, website: Option<string>,
    socialLinks: Option<SocialLinks>, profilePicture: Option<string>)

  /** The website's href: kept when it starts with "http", otherwise given an
      "https://" prefix. */
  function WebsiteHref(w: string): (r: string)
    ensures StartsWith(r, "http")
    ensures StartsWith(w, "http") ==> r == w
    ensures !StartsWith(w, "http") ==> r == "https://" + w
  {
    if StartsWith(w, "http") then w
    else
      assert ("https://" + w)[..4] == "http";
      "https://" + w
  }

  /** `\w`: a letter, a digit or "_". */
  predicate WordChar(c: char)
  {
    'a' <= c <= 'z' || 'A' <= c <= 'Z' || '0' <= c <= '9' || c == '_'
  }

  /** The length of the run of word characters that starts the string. */
  function WordPrefix(s: string): (n: nat)
    ensures n <= |s|
    ensures forall k :: 0 <= k < n ==> WordChar(s[k])
    ensures n < |s| ==> !WordChar(s[n])
  {
    if s == [] || !WordChar(s[0]) then 0 else 1 + WordPrefix(s[1..])
  }

  /** `w.replace(/(^\w+:|^)\/\//, "")`: drops a leading "scheme://" or a leading
      "//", and nothing else. */
  function WebsiteDisplay(w: string): string
  {
    var n := WordPrefix(w);
    if 0 < n && n + 3 <= |w| && w[n] == ':' && w[n + 1..n + 3] == "//" then w[n + 3..]
    else if StartsWith(w, "//") then w[2..]
    else w
  }

  /** The displayed website is a suffix of the stored one. */
  lemma WebsiteDisplaySuffix(w: string)
    ensures var d := WebsiteDisplay(w); |d| <= |w| && w[|w| - |d|..] == d
  {
  }

  /** The run of word characters of `a + b` is `a` when `a` is all word characters
      and `b` starts with another character. */
  lemma {:induction false} WordPrefixConcat(a: string, b: string)
    requires forall k :: 0 <= k < |a| ==> WordChar(a[k])
    requires b != [] && !WordChar(b[0])
    ensures WordPrefix(a + b) == |a|
  {
    if a != [] {
      assert (a + b)[1..] == a[1..] + b;
      WordPrefixConcat(a[1..], b);
    } else {
      assert a + b == b;
    }
  }

  /** The display drops a leading "https://", so displaying the href of an
      address that needed that prefix gives back the address. */
  lemma WebsiteDisplayOfHref(w: string)
    ensures WebsiteDisplay("https://" + w) == w
    ensures !StartsWith(w, "http") ==> WebsiteDisplay(WebsiteHref(w)) == w
  {
    var h := "https://" + w;
    assert h == "https" + ("://" + w);
    WordPrefixConcat("https", "://" + w);
    assert h[5] == ':' && h[6..8] == "//" && h[8..] == w;
  }

  /** An address with a scheme-less "//" loses only those two slashes, and one
      without a scheme or leading slashes is shown as stored. */
  lemma WebsiteDisplayPlain(w: string)
    requires w != [] && !WordChar(w[0])
    ensures WebsiteDisplay("//" + w) == w
    ensures w[0] != '/' ==> WebsiteDisplay(w) == w
  {
    var d := "//" + w;
    assert WordPrefix(d) == 0;
    assert d[..2] == "//" && d[2..] == w;
  }

  /** The href of a social handle: kept when it starts with "http", otherwise
      appended to the site's profile prefix. */
  function SocialHref(prefix: string, v: string): (r: string)
    ensures StartsWith(v, "http") ==> r == v
    ensures !StartsWith(v, "http") ==> StartsWith(r, prefix) && r[|prefix|..] == v
  {
    if StartsWith(v, "http") then v
    else
      assert (prefix + v)[..|prefix|] == prefix;
      prefix + v
  }

  const TwitterPrefix := "https://twitter.com/"
  const LinkedInPrefix := "https://linkedin.com/in/"
  const GitHubPrefix := "https://github.com/"

  /** The social links shown, in page order, each as (site, href); a link shows
      only when its value is non-empty. */
  function VisibleLinks(links: Option<SocialLinks>): seq<(string, string)>
  {
    if links.None? then []
    else
      var l := links.value;
      (if Truthy(l.twitter) then [("Twitter", SocialHref(TwitterPrefix, l.twitter.value))] else []) +
      (if Truthy(l.linkedin) then [("LinkedIn", SocialHref(LinkedInPrefix, l.linkedin.value))] else []) +
      (if Truthy(l.github) then [("GitHub", SocialHref(GitHubPrefix, l.github.value))] else [])
  }

  /** "No social links added yet." shows when all three links are empty or missing. */
  predicate ShowsNoLinksNote(links: Option<SocialLinks>)
  {
    links.None? || (!Truthy(links.value.twitter) && !Truthy(links.value.linkedin) && !Truthy(links.value.github))
  }

  /** The note shows exactly when no link does; a bare handle links to the site's
      profile page. */
  lemma NoLinksNoteSpec(links: Option<SocialLinks>)
    ensures ShowsNoLinksNote(links) <==> VisibleLinks(links) == []
    ensures |VisibleLinks(links)| <= 3
    ensures links.Some? && Truthy(links.value.github) && !StartsWith(links.value.github.value, "http") ==>
      VisibleLinks(links)[|VisibleLinks(links)| - 1] == ("GitHub", GitHubPrefix + links.value.github.value)
  {
  }

  /** `profile.name?.[0]?.toUpperCase()`: nothing for a missing or empty name;
      otherwise never a small letter, and the name's first character up to case. */
  function AvatarLetter(name: Option<string>): (r: Option<char>)
    ensures r.Some? <==> Truthy(name)
    ensures r.Some? ==> !IsAsciiLower(r.value) && LowerChar(r.value) == LowerChar(name.value[0])
  {
    if name.Some? && name.value != "" then Some(UpperChar(name.value[0])) else None
  }
}

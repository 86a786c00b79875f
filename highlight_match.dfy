/** highlightMatch of client/src/utils/highlightMatch.js: every case-insensitive
    occurrence of a search query in a text is wrapped in `<mark>` tags. The query is
    escaped before it becomes a regular expression, so it matches literally; the
    model states the escaping on its own and then matches the query literally. */
module HighlightMatch {
  import opened Common

  /** The characters the escape pattern `[.*+?^${}()|[\]\\]` covers. */
  predicate IsRegexMeta(c: char)
  {
    c in {'.', '*', '+', '?', '^', '$', '{', '}', '(', ')', '|', '[', ']', '\\'}
  }

  /** `query.replace(/[.*+?^${}()|[\]\\]/g, "\\$&")`: a backslash before each
      metacharacter. */
  function Escape(q: string): (r: string)
    ensures |r| >= |q|
  {
    if q == [] then []
    else (if IsRegexMeta(q[0]) then ['\\', q[0]] else [q[0]]) + Escape(q[1..])
  }

  /** The literal text a pattern made of plain characters and backslash escapes
      stands for; `None` when a metacharacter stands unescaped or a backslash ends
      the pattern. */
  function Literal(p: string): Option<string>
  {
    if p == [] then Some([])
    else if p[0] == '\\' then
      if |p| >= 2 then
        var rest := Literal(p[2..]);
        if rest.Some? then Some([p[1]] + rest.value) else None
      else None
    else if IsRegexMeta(p[0]) then None
    else
      var rest := Literal(p[1..]);
      if rest.Some? then Some([p[0]] + rest.value) else None
  }

  /** The escaped query is a pattern with no operator left in it, and the text it
      matches is the query itself. */
  lemma {:induction false} EscapeIsLiteral(q: string)
    ensures Literal(Escape(q)) == Some(q)
  {
    if q != [] {
      EscapeIsLiteral(q[1..]);
      var head := if IsRegexMeta(q[0]) then ['\\', q[0]] else [q[0]];
      assert Escape(q) == head + Escape(q[1..]);
      if IsRegexMeta(q[0]) {
        assert Escape(q)[2..] == Escape(q[1..]);
      } else {
        assert Escape(q)[1..] == Escape(q[1..]);
      }
      assert q == [q[0]] + q[1..];
    }
  }

  /** The query occurs at `i`, ignoring case (the `i` flag). */
  predicate MatchAt(t: string, q: string, i: int)
  {
    0 <= i && i + |q| <= |t| && Lower(t[i..i + |q|]) == Lower(q)
  }

  /** A piece of the result: text left alone, or a match wrapped in a mark. */
  datatype Piece = Plain(c: char) | Marked(s: string)

  /** The `g` flag: scanning left to right, each match is marked and scanning goes on
      after it; any other character is kept. */
  function Pieces(t: string, q: string): seq<Piece>
    requires q != ""
    decreases |t|
  {
    if t == [] then []
    else if MatchAt(t, q, 0) then [Marked(t[..|q|])] + Pieces(t[|q|..], q)
    else [Plain(t[0])] + Pieces(t[1..], q)
  }

  /** The text the pieces print as. */
  function Render(ps: seq<Piece>): string
  {
    if ps == [] then []
    else
      (match ps[0]
       case Plain(c) => [c]
       case Marked(s) => "<mark>" + s + "</mark>") + Render(ps[1..])
  }

  /** The text with the inserted tags taken out. */
  function Unmarked(ps: seq<Piece>): string
  {
    if ps == [] then []
    else
      (match ps[0]
       case Plain(c) => [c]
       case Marked(s) => s) + Unmarked(ps[1..])
  }

  /** highlightMatch: "" for a missing or empty text, the text itself for a missing
      or empty query, and otherwise the text with every match marked. */
  function Highlight(text: Option<string>, query: Option<string>): string
  {
    if !Truthy(text) then ""
    else if !Truthy(query) then text.value
    else Render(Pieces(text.value, query.value))
  }

  /** Taking the inserted tags out gives back the text, with its own casing, and
      every marked piece is the query up to case. */
  lemma {:induction false} PiecesSpec(t: string, q: string)
    requires q != ""
    decreases |t|
    ensures Unmarked(Pieces(t, q)) == t
    ensures forall k :: 0 <= k < |Pieces(t, q)| && Pieces(t, q)[k].Marked? ==>
      Lower(Pieces(t, q)[k].s) == Lower(q)
  {
    if t != [] {
      var ps := Pieces(t, q);
      if MatchAt(t, q, 0) {
        PiecesSpec(t[|q|..], q);
        assert ps[1..] == Pieces(t[|q|..], q);
        assert t == t[..|q|] + t[|q|..];
        forall k | 1 <= k < |ps| && ps[k].Marked?
          ensures Lower(ps[k].s) == Lower(q)
        {
          assert ps[k] == Pieces(t[|q|..], q)[k - 1];
        }
      } else {
        PiecesSpec(t[1..], q);
        assert ps[1..] == Pieces(t[1..], q);
        assert t == [t[0]] + t[1..];
        forall k | 1 <= k < |ps| && ps[k].Marked?
          ensures Lower(ps[k].s) == Lower(q)
        {
          assert ps[k] == Pieces(t[1..], q)[k - 1];
        }
      }
    }
  }

  /** A text with no occurrence of the query comes back unchanged. */
  lemma {:induction false} NoMatchUnchanged(t: string, q: string)
    requires q != ""
    requires forall i :: 0 <= i < |t| ==> !MatchAt(t, q, i)
    decreases |t|
    ensures Render(Pieces(t, q)) == t
  {
    if t != [] {
      forall i | 0 <= i < |t[1..]|
        ensures !MatchAt(t[1..], q, i)
      {
        assert !MatchAt(t, q, i + 1);
        if i + |q| <= |t[1..]| {
          assert t[1..][i..i + |q|] == t[i + 1..i + 1 + |q|];
        }
      }
      NoMatchUnchanged(t[1..], q);
      assert t == [t[0]] + t[1..];
    }
  }

  /** The scan misses nothing: every character it leaves unmarked sits at a position
      where the query does not occur, so each occurrence the scan reaches is marked. */
  lemma {:induction false} PlainPiecesDoNotMatch(t: string, q: string)
    requires q != ""
    decreases |t|
    ensures forall k :: 0 <= k < |Pieces(t, q)| && Pieces(t, q)[k].Plain? ==>
      !MatchAt(t, q, |Unmarked(Pieces(t, q)[..k])|)
  {
    if t != [] {
      var ps := Pieces(t, q);
      var h := if MatchAt(t, q, 0) then |q| else 1;
      var rest := Pieces(t[h..], q);
      assert ps[1..] == rest;
      PlainPiecesDoNotMatch(t[h..], q);
      forall k | 0 <= k < |ps| && ps[k].Plain?
        ensures !MatchAt(t, q, |Unmarked(ps[..k])|)
      {
        if k > 0 {
          UnmarkedPrefix(ps, k);
          assert ps[1..][..k - 1] == rest[..k - 1] && ps[k] == rest[k - 1];
          MatchAtShift(t, q, h, |Unmarked(rest[..k - 1])|);
        }
      }
    }
  }

  /** The text under a non-empty prefix of pieces is the first piece's text followed
      by the text under the rest of the prefix. */
  lemma UnmarkedPrefix(ps: seq<Piece>, k: nat)
    requires 0 < k <= |ps|
    ensures |Unmarked(ps[..k])| == |Unmarked([ps[0]])| + |Unmarked(ps[1..][..k - 1])|
  {
    assert ps[..k][1..] == ps[1..][..k - 1];
    assert [ps[0]][1..] == [];
  }

  /** An occurrence in a suffix of the text is an occurrence in the text, shifted. */
  lemma MatchAtShift(t: string, q: string, h: nat, j: nat)
    requires h <= |t|
    ensures MatchAt(t[h..], q, j) <==> MatchAt(t, q, h + j)
  {
    if h + j + |q| <= |t| {
      assert t[h..][j..j + |q|] == t[h + j..h + j + |q|];
    }
  }

  /** Marks only add text: the rendering is at least as long as the text it marks,
      and longer as soon as one piece is marked. */
  lemma {:induction false} RenderGrows(ps: seq<Piece>)
    ensures |Render(ps)| >= |Unmarked(ps)|
    ensures (exists k :: 0 <= k < |ps| && ps[k].Marked?) ==> |Render(ps)| > |Unmarked(ps)|
  {
    if ps != [] {
      RenderGrows(ps[1..]);
      if exists k :: 0 <= k < |ps| && ps[k].Marked? {
        var k :| 0 <= k < |ps| && ps[k].Marked?;
        if k > 0 {
          assert ps[1..][k - 1].Marked?;
        }
      }
    }
  }

  /** A scan that marks nothing met no occurrence anywhere in the text. */
  lemma {:induction false} NoMarksNoMatch(t: string, q: string)
    requires q != ""
    requires forall k :: 0 <= k < |Pieces(t, q)| ==> Pieces(t, q)[k].Plain?
    decreases |t|
    ensures forall i :: 0 <= i < |t| ==> !MatchAt(t, q, i)
  {
    if t != [] {
      var ps := Pieces(t, q);
      assert ps[0].Plain?;
      assert ps[1..] == Pieces(t[1..], q);
      forall k | 0 <= k < |Pieces(t[1..], q)|
        ensures Pieces(t[1..], q)[k].Plain?
      {
        assert Pieces(t[1..], q)[k] == ps[k + 1];
      }
      NoMarksNoMatch(t[1..], q);
      forall i | 0 <= i < |t|
        ensures !MatchAt(t, q, i)
      {
        if i > 0 && i + |q| <= |t| {
          assert !MatchAt(t[1..], q, i - 1);
          assert t[1..][i - 1..i - 1 + |q|] == t[i..i + |q|];
        }
      }
    }
  }

  /** The text comes back unchanged exactly when the query occurs nowhere in it,
      ignoring case; any occurrence gets marked. */
  lemma HighlightUnchangedIff(t: string, q: string)
    requires q != ""
    ensures Render(Pieces(t, q)) == t <==> forall i :: 0 <= i < |t| ==> !MatchAt(t, q, i)
  {
    var ps := Pieces(t, q);
    if forall i :: 0 <= i < |t| ==> !MatchAt(t, q, i) {
      NoMatchUnchanged(t, q);
    }
    if Render(ps) == t {
      PiecesSpec(t, q);
      RenderGrows(ps);
      NoMarksNoMatch(t, q);
    }
  }

  /** The guards: a missing or empty text gives "", a missing or empty query gives
      the text back, and a query matching the whole text marks all of it. */
  lemma HighlightGuards(text: Option<string>, query: Option<string>)
    ensures !Truthy(text) ==> Highlight(text, query) == ""
    ensures Truthy(text) && !Truthy(query) ==> Highlight(text, query) == text.value
    ensures Truthy(text) && Truthy(query) && Lower(text.value) == Lower(query.value) ==>
      Highlight(text, query) == "<mark>" + text.value + "</mark>"
  {
    if Truthy(text) && Truthy(query) && Lower(text.value) == Lower(query.value) {
      var t := text.value;
      var q := query.value;
      assert |t| == |Lower(t)| == |Lower(q)| == |q|;
      assert t[..|q|] == t && t[|q|..] == [];
      assert Pieces(t, q) == [Marked(t)];
      assert Render([Marked(t)]) == "<mark>" + t + "</mark>" + Render([]);
    }
  }
}

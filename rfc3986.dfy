/** Reference resolution as section 5 of RFC 3986 defines it: the component
    parse of Appendix B, the transform of section 5.2.2, the merge of section
    5.2.3, remove_dot_segments of section 5.2.4 and the recomposition of
    section 5.3. */
module Rfc3986 {
  import opened Wrappers
  import opened Strings

  /** The five components; an undefined component is None, which is not the
      same as an empty one. */
  datatype Reference = Reference(
    scheme: Option<string>,
    authority: Option<string>,
    path: string,
    query: Option<string>,
    fragment: Option<string>)

  /** The delimiter classes the expression of Appendix B stops at. */
  datatype Stop = SchemeEnd | AuthorityEnd | PathEnd | FirstSlashOrColon

  predicate StopsAt(d: Stop, c: char) {
    match d
    case SchemeEnd => c == ':' || c == '/' || c == '?' || c == '#'
    case AuthorityEnd => c == '/' || c == '?' || c == '#'
    case PathEnd => c == '?' || c == '#'
    case FirstSlashOrColon => c == ':' || c == '/'
  }

  /** Position of the first character of `s` in class `d`, or `|s|`. */
  function FirstOf(s: string, d: Stop): (i: nat)
    ensures i <= |s|
    ensures i < |s| ==> StopsAt(d, s[i])
    ensures forall j :: 0 <= j < i ==> !StopsAt(d, s[j])
  {
    if |s| == 0 then 0
    else if StopsAt(d, s[0]) then 0
    else 1 + FirstOf(s[1..], d)
  }

  lemma {:induction false} FirstOfAfterPrefix(a: string, b: string, d: Stop)
    requires forall j :: 0 <= j < |a| ==> !StopsAt(d, a[j])
    ensures FirstOf(a + b, d) == |a| + FirstOf(b, d)
    decreases |a|
  {
    if |a| > 0 {
      assert (a + b)[1..] == a[1..] + b;
      FirstOfAfterPrefix(a[1..], b, d);
    } else {
      assert a + b == b;
    }
  }

  // ---------------------------------------------------------------------------
  // Appendix B: ^(([^:/?#]+):)?(//([^/?#]*))?([^?#]*)(\?([^#]*))?(#(.*))?

  /** `(#(.*))?` */
  function ParseFragment(s: string): Option<string> {
    if |s| > 0 then Some(s[1..]) else None
  }

  /** `([^?#]*)(\?([^#]*))?(#(.*))?`, scheme and authority already read. */
  function ParsePathOn(scheme: Option<string>, authority: Option<string>, s: string): Reference {
    var k := FirstOf(s, PathEnd);
    var t := s[k..];
    if |t| > 0 && t[0] == '?' then
      var h := 1 + IndexOf(t[1..], '#');
      Reference(scheme, authority, s[..k], Some(t[1..h]), ParseFragment(t[h..]))
    else Reference(scheme, authority, s[..k], None, ParseFragment(t))
  }

  /** `(//([^/?#]*))?` and the rest, the scheme already read. */
  function ParseAuthorityOn(scheme: Option<string>, s: string): Reference {
    if StartsWith(s, "//") then
      var j := 2 + FirstOf(s[2..], AuthorityEnd);
      ParsePathOn(scheme, Some(s[2..j]), s[j..])
    else ParsePathOn(scheme, None, s)
  }

  /** The component parse of Appendix B. It never fails: every string is a
      (possibly relative) reference. */
  function Parse(s: string): Reference {
    var i := FirstOf(s, SchemeEnd);
    if 0 < i < |s| && s[i] == ':' then ParseAuthorityOn(Some(s[..i]), s[i + 1..])
    else ParseAuthorityOn(None, s)
  }

  // ---------------------------------------------------------------------------
  // Section 5.3: component recomposition

  function OptText(prefix: string, c: Option<string>): string {
    match c
    case None => ""
    case Some(v) => prefix + v
  }

  /** The text of path, query and fragment. */
  function PathText(r: Reference): string {
    r.path + (OptText("?", r.query) + OptText("#", r.fragment))
  }

  /** The text from the authority on. */
  function HierText(r: Reference): string {
    OptText("//", r.authority) + PathText(r)
  }

  function Recompose(r: Reference): string {
    match r.scheme
    case None => HierText(r)
    case Some(s) => s + ":" + HierText(r)
  }

  /** What Appendix B can give back: the components hold none of their own
      delimiters, and the path can neither be mistaken for an authority nor,
      without a scheme, start with something that looks like one. */
  predicate WellFormed(r: Reference) {
    (r.scheme.Some? ==> |r.scheme.value| > 0 && forall k :: 0 <= k < |r.scheme.value| ==> !StopsAt(SchemeEnd, r.scheme.value[k]))
    && (r.authority.Some? ==> forall k :: 0 <= k < |r.authority.value| ==> !StopsAt(AuthorityEnd, r.authority.value[k]))
    && (forall k :: 0 <= k < |r.path| ==> !StopsAt(PathEnd, r.path[k]))
    && (r.query.Some? ==> '#' !in r.query.value)
    && (r.authority.Some? ==> r.path == "" || r.path[0] == '/')
    && (r.authority.None? ==> !StartsWith(r.path, "//"))
    && (r.scheme.None? && r.authority.None? ==>
          var m := FirstOf(r.path, FirstSlashOrColon); m == 0 || m == |r.path| || r.path[m] == '/')
  }

  lemma {:induction false} PathOnRecompose(scheme: Option<string>, authority: Option<string>, s: string)
    ensures var r := ParsePathOn(scheme, authority, s);
      r.scheme == scheme && r.authority == authority && PathText(r) == s
  {
    var k := FirstOf(s, PathEnd);
    SplitAt(s, k);
    if k < |s| && s[k] == '?' {
      PathOnWithQuery(scheme, authority, s, k);
    } else {
      PathOnWithoutQuery(scheme, authority, s, k);
    }
  }

  lemma PathOnWithQuery(scheme: Option<string>, authority: Option<string>, s: string, k: nat)
    requires k == FirstOf(s, PathEnd) && k < |s| && s[k] == '?'
    ensures PathText(ParsePathOn(scheme, authority, s)) == s[..k] + s[k..]
  {
    var t := s[k..];
    assert t[0] == '?';
    QueryTailText(t);
  }

  lemma PathOnWithoutQuery(scheme: Option<string>, authority: Option<string>, s: string, k: nat)
    requires k == FirstOf(s, PathEnd) && !(k < |s| && s[k] == '?')
    ensures PathText(ParsePathOn(scheme, authority, s)) == s[..k] + s[k..]
  {
    var t := s[k..];
    if k < |s| {
      assert t[0] == s[k];
    }
    FragmentText(t);
  }

  lemma SplitAt(s: string, k: nat)
    requires k <= |s|
    ensures s == s[..k] + s[k..]
  {
  }

  /** Query and fragment read from text that starts with '?' give it back. */
  lemma QueryTailText(t: string)
    requires |t| > 0 && t[0] == '?'
    ensures var h := 1 + IndexOf(t[1..], '#');
      OptText("?", Some(t[1..h])) + OptText("#", ParseFragment(t[h..])) == t
  {
    var h := 1 + IndexOf(t[1..], '#');
    if h < |t| {
      assert t[1..][h - 1] == t[h];
    }
    FragmentText(t[h..]);
    assert t == "?" + t[1..h] + t[h..];
  }

  /** A fragment read from text that is empty or starts with '#' gives it back. */
  lemma FragmentText(u: string)
    requires u == "" || u[0] == '#'
    ensures OptText("#", ParseFragment(u)) == u
  {
    if u != "" {
      assert u == "#" + u[1..];
    }
  }

  lemma {:induction false} AuthorityOnRecompose(scheme: Option<string>, s: string)
    ensures var r := ParseAuthorityOn(scheme, s); r.scheme == scheme && HierText(r) == s
  {
    if StartsWith(s, "//") {
      var j := 2 + FirstOf(s[2..], AuthorityEnd);
      var r := ParsePathOn(scheme, Some(s[2..j]), s[j..]);
      assert ParseAuthorityOn(scheme, s) == r;
      PathOnRecompose(scheme, Some(s[2..j]), s[j..]);
      AuthorityAndRest(s, j);
      assert HierText(r) == "//" + s[2..j] + s[j..];
    } else {
      assert ParseAuthorityOn(scheme, s) == ParsePathOn(scheme, None, s);
      PathOnRecompose(scheme, None, s);
    }
  }

  /** Recomposing the components of any string gives back that string. */
  lemma {:induction false} RecomposeParse(s: string)
    ensures Recompose(Parse(s)) == s
  {
    var i := FirstOf(s, SchemeEnd);
    if 0 < i < |s| && s[i] == ':' {
      assert Parse(s) == ParseAuthorityOn(Some(s[..i]), s[i + 1..]);
      SchemedRecompose(s[..i], s[i + 1..]);
      SchemeAndRest(s, i);
    } else {
      assert Parse(s) == ParseAuthorityOn(None, s);
      SchemelessRecompose(s);
    }
  }

  lemma SchemeAndRest(s: string, i: nat)
    requires i < |s| && s[i] == ':'
    ensures s == s[..i] + ":" + s[i + 1..]
  {
  }

  lemma SchemedRecompose(scheme: string, rest: string)
    ensures Recompose(ParseAuthorityOn(Some(scheme), rest)) == scheme + ":" + rest
  {
    AuthorityOnRecompose(Some(scheme), rest);
  }

  lemma SchemelessRecompose(s: string)
    ensures Recompose(ParseAuthorityOn(None, s)) == s
  {
    AuthorityOnRecompose(None, s);
  }

  lemma {:induction false} QueryAndFragmentRead(q: Option<string>, f: Option<string>)
    requires q.Some? ==> '#' !in q.value
    ensures var t := OptText("?", q) + OptText("#", f);
      if |t| > 0 && t[0] == '?' then
        var h := 1 + IndexOf(t[1..], '#');
        q == Some(t[1..h]) && f == ParseFragment(t[h..])
      else q.None? && f == ParseFragment(t)
  {
    if q.Some? {
      QueryRead(q.value, f);
    } else if f.Some? {
      assert OptText("?", q) + OptText("#", f) == "#" + f.value;
    }
  }

  lemma QueryRead(q: string, f: Option<string>)
    requires '#' !in q
    ensures var t := "?" + q + OptText("#", f);
      var h := 1 + IndexOf(t[1..], '#');
      t[1..h] == q && t[h..] == OptText("#", f)
  {
    var t := "?" + q + OptText("#", f);
    assert t[1..] == q + OptText("#", f);
    if f.Some? {
      assert t[1..] == q + ['#'] + f.value;
      IndexOfAfterPrefix(q, '#', f.value);
    } else {
      IndexOfAbsent(q, '#');
    }
  }


  lemma {:induction false} PathOnOf(r: Reference)
    requires forall k :: 0 <= k < |r.path| ==> !StopsAt(PathEnd, r.path[k])
    requires r.query.Some? ==> '#' !in r.query.value
    ensures ParsePathOn(r.scheme, r.authority, PathText(r)) == r
  {
    var t := OptText("?", r.query) + OptText("#", r.fragment);
    var s := PathText(r);
    FirstOfAfterPrefix(r.path, t, PathEnd);
    assert FirstOf(t, PathEnd) == 0 by {
      if |t| > 0 {
        assert t[0] == '?' || t[0] == '#';
      }
    }
    assert s[..|r.path|] == r.path && s[|r.path|..] == t;
    QueryAndFragmentRead(r.query, r.fragment);
  }

  /** A path-text that starts with '/', '?' or '#' or is empty ends an authority. */
  lemma PathTextEndsAuthority(r: Reference)
    requires r.path == "" || r.path[0] == '/'
    ensures FirstOf(PathText(r), AuthorityEnd) == 0
  {
    var s := PathText(r);
    if |s| > 0 {
      if r.path != "" {
        assert s[0] == r.path[0];
      } else {
        assert s == OptText("?", r.query) + OptText("#", r.fragment);
        assert s[0] == '?' || s[0] == '#';
      }
    }
  }

  lemma {:induction false} AuthorityOnOf(r: Reference)
    requires WellFormed(r)
    ensures ParseAuthorityOn(r.scheme, HierText(r)) == r
  {
    var s := HierText(r);
    var rest := PathText(r);
    PathOnOf(r);
    if r.authority.Some? {
      AuthorityOnOfAuthority(r);
    } else {
      assert s == rest;
      NoAuthorityText(r);
    }
  }

  lemma AuthorityOnOfAuthority(r: Reference)
    requires r.authority.Some?
    requires forall k :: 0 <= k < |r.authority.value| ==> !StopsAt(AuthorityEnd, r.authority.value[k])
    requires r.path == "" || r.path[0] == '/'
    requires ParsePathOn(r.scheme, r.authority, PathText(r)) == r
    ensures ParseAuthorityOn(r.scheme, HierText(r)) == r
  {
    var s := HierText(r);
    var rest := PathText(r);
    var a := r.authority.value;
    assert s == "//" + a + rest;
    AuthorityPieces(s, a, rest);
    FirstOfAfterPrefix(a, rest, AuthorityEnd);
    PathTextEndsAuthority(r);
  }

  lemma AuthorityAndRest(s: string, j: nat)
    requires StartsWith(s, "//") && 2 <= j <= |s|
    ensures s == "//" + s[2..j] + s[j..]
  {
    assert s == s[..2] + s[2..j] + s[j..];
  }

  lemma AuthorityPieces(s: string, a: string, rest: string)
    requires s == "//" + a + rest
    ensures StartsWith(s, "//") && s[2..] == a + rest && s[2..2 + |a|] == a && s[2 + |a|..] == rest
  {
  }

  lemma NoAuthorityText(r: Reference)
    requires !StartsWith(r.path, "//")
    ensures !StartsWith(PathText(r), "//")
  {
    var s := PathText(r);
    if |r.path| >= 2 {
      assert s[..2] == r.path[..2];
    } else if |s| >= 2 {
      assert s[|r.path|] == '?' || s[|r.path|] == '#';
      assert s[..2][|r.path|] == s[|r.path|];
    }
  }

  /** Parsing a well-formed reference's text gives back its components. */
  lemma {:induction false} ParseRecompose(r: Reference)
    requires WellFormed(r)
    ensures Parse(Recompose(r)) == r
  {
    if r.scheme.Some? {
      SchemedParseRecompose(r);
    } else {
      SchemelessHasNoScheme(r);
      AuthorityOnOf(r);
    }
  }

  lemma SchemedParseRecompose(r: Reference)
    requires WellFormed(r) && r.scheme.Some?
    ensures Parse(Recompose(r)) == r
  {
    var sc := r.scheme.value;
    var rest := HierText(r);
    var s := Recompose(r);
    assert s == sc + ([':'] + rest);
    FirstOfAfterPrefix(sc, [':'] + rest, SchemeEnd);
    assert s[..|sc|] == sc && s[|sc| + 1..] == rest;
    AuthorityOnOf(r);
  }

  lemma SchemelessHasNoScheme(r: Reference)
    requires WellFormed(r) && r.scheme.None?
    ensures var s := Recompose(r); var i := FirstOf(s, SchemeEnd); !(0 < i < |s| && s[i] == ':')
  {
    var s := Recompose(r);
    if r.authority.Some? {
      assert s[0] == '/';
    } else {
      assert s == PathText(r);
      SchemelessPathHasNoScheme(r);
    }
  }

  lemma SchemelessPathHasNoScheme(r: Reference)
    requires WellFormed(r) && r.scheme.None? && r.authority.None?
    ensures var s := PathText(r); var i := FirstOf(s, SchemeEnd); !(0 < i < |s| && s[i] == ':')
  {
    var s := PathText(r);
    var t := OptText("?", r.query) + OptText("#", r.fragment);
    var m := FirstOf(r.path, FirstSlashOrColon);
    if m == 0 && |r.path| > 0 {
      assert s[0] == r.path[0];
    } else if m < |r.path| {
      assert r.path[m] == '/';
      assert s == r.path[..m] + (['/'] + (r.path[m + 1..] + t));
      FirstOfAfterPrefix(r.path[..m], ['/'] + (r.path[m + 1..] + t), SchemeEnd);
    } else {
      FirstOfAfterPrefix(r.path, t, SchemeEnd);
      if |t| > 0 {
        assert t[0] == '?' || t[0] == '#';
      }
    }
  }

  lemma PathOnWellFormed(scheme: Option<string>, authority: Option<string>, s: string)
    ensures var r := ParsePathOn(scheme, authority, s);
      r.scheme == scheme && r.authority == authority
      && (forall k :: 0 <= k < |r.path| ==> !StopsAt(PathEnd, r.path[k]))
      && (r.query.Some? ==> '#' !in r.query.value)
      && r.path == s[..|r.path|]
      && (|r.path| < |s| ==> StopsAt(PathEnd, s[|r.path|]))
  {
  }

  /** What the authority-on parse of `s` guarantees about its result `r`. */
  predicate AuthorityOnFacts(scheme: Option<string>, s: string, r: Reference) {
    r.scheme == scheme
    && (r.authority.Some? ==> forall k :: 0 <= k < |r.authority.value| ==> !StopsAt(AuthorityEnd, r.authority.value[k]))
    && (forall k :: 0 <= k < |r.path| ==> !StopsAt(PathEnd, r.path[k]))
    && (r.query.Some? ==> '#' !in r.query.value)
    && (r.authority.Some? ==> r.path == "" || r.path[0] == '/')
    && (r.authority.None? ==> !StartsWith(r.path, "//") && |r.path| <= |s| && r.path == s[..|r.path|] && (|r.path| < |s| ==> StopsAt(PathEnd, s[|r.path|])))
  }

  lemma AuthorityOnWellFormed(scheme: Option<string>, s: string)
    ensures AuthorityOnFacts(scheme, s, ParseAuthorityOn(scheme, s))
  {
    if StartsWith(s, "//") {
      var j := 2 + FirstOf(s[2..], AuthorityEnd);
      assert ParseAuthorityOn(scheme, s) == ParsePathOn(scheme, Some(s[2..j]), s[j..]);
      WithAuthorityWellFormed(scheme, s, j);
    } else {
      assert ParseAuthorityOn(scheme, s) == ParsePathOn(scheme, None, s);
      WithoutAuthorityWellFormed(scheme, s);
    }
  }

  lemma WithAuthorityWellFormed(scheme: Option<string>, s: string, j: nat)
    requires StartsWith(s, "//") && j == 2 + FirstOf(s[2..], AuthorityEnd)
    ensures AuthorityOnFacts(scheme, s, ParsePathOn(scheme, Some(s[2..j]), s[j..]))
  {
    PathOnWellFormed(scheme, Some(s[2..j]), s[j..]);
    var r := ParsePathOn(scheme, Some(s[2..j]), s[j..]);
    if r.path != "" {
      assert r.path[0] == s[j];
    }
  }

  lemma WithoutAuthorityWellFormed(scheme: Option<string>, s: string)
    requires !StartsWith(s, "//")
    ensures AuthorityOnFacts(scheme, s, ParsePathOn(scheme, None, s))
  {
    PathOnWellFormed(scheme, None, s);
    var r := ParsePathOn(scheme, None, s);
    if |r.path| >= 2 {
      assert r.path[..2] == s[..2];
    }
  }

  /** Every component parse is well formed, so that Parse and Recompose are
      inverse bijections between strings and well-formed references. */
  lemma ParseWellFormed(s: string)
    ensures WellFormed(Parse(s))
  {
    var i := FirstOf(s, SchemeEnd);
    if 0 < i < |s| && s[i] == ':' {
      SchemedWellFormed(s, i);
    } else {
      assert Parse(s) == ParseAuthorityOn(None, s);
      SchemelessWellFormed(s, i, Parse(s));
    }
  }

  lemma SchemedWellFormed(s: string, i: nat)
    requires i == FirstOf(s, SchemeEnd) && 0 < i < |s| && s[i] == ':'
    ensures WellFormed(Parse(s))
  {
    assert Parse(s) == ParseAuthorityOn(Some(s[..i]), s[i + 1..]);
    AuthorityOnWellFormed(Some(s[..i]), s[i + 1..]);
  }

  lemma SchemelessWellFormed(s: string, i: nat, r: Reference)
    requires i == FirstOf(s, SchemeEnd) && !(0 < i < |s| && s[i] == ':')
    requires r == ParseAuthorityOn(None, s)
    ensures WellFormed(r)
  {
    AuthorityOnWellFormed(None, s);
    if r.authority.None? {
      SchemelessPathWellFormed(s, r.path);
    }
  }

  lemma SchemelessPathWellFormed(s: string, path: string)
    requires |path| <= |s| && path == s[..|path|]
    requires |path| < |s| ==> StopsAt(PathEnd, s[|path|])
    requires forall k :: 0 <= k < |path| ==> !StopsAt(PathEnd, path[k])
    requires var i := FirstOf(s, SchemeEnd); !(0 < i < |s| && s[i] == ':')
    ensures var m := FirstOf(path, FirstSlashOrColon); m == 0 || m == |path| || path[m] == '/'
  {
    var m := FirstOf(path, FirstSlashOrColon);
    if 0 < m < |path| {
      assert forall j :: 0 <= j < m ==> !StopsAt(SchemeEnd, path[..m][j]) by {
        forall j | 0 <= j < m ensures !StopsAt(SchemeEnd, path[..m][j]) {
          assert !StopsAt(FirstSlashOrColon, path[j]) && !StopsAt(PathEnd, path[j]);
        }
      }
      assert s == path[..m] + s[m..];
      FirstOfAfterPrefix(path[..m], s[m..], SchemeEnd);
      assert s[m] == path[m];
    }
  }

  // ---------------------------------------------------------------------------
  // Section 5.2.4: remove_dot_segments

  /** Index of the last '/' of `s`, when there is one. */
  function LastSlash(s: string): (r: Option<nat>)
    ensures r.Some? ==> r.value < |s| && s[r.value] == '/' && '/' !in s[r.value + 1..]
    ensures r.None? ==> '/' !in s
  {
    if |s| == 0 then None
    else if s[|s| - 1] == '/' then Some(|s| - 1)
    else
      var r := LastSlash(s[..|s| - 1]);
      assert s[..|s| - 1] + [s[|s| - 1]] == s;
      if r.Some? then
        assert s[r.value + 1..] == s[..|s| - 1][r.value + 1..] + [s[|s| - 1]];
        r
      else None
  }

  /** "removing the last segment and its preceding '/' (if any) from the
      output buffer" */
  function DropLastSegment(output: string): string {
    match LastSlash(output)
    case Some(i) => output[..i]
    case None => ""
  }

  /** Length of the first path segment of a non-empty buffer, including its
      initial '/' if any, up to but not including the next '/'. */
  function FirstSegmentLength(input: string): (n: nat)
    requires |input| > 0
    ensures 0 < n <= |input|
    ensures '/' !in input[1..n]
    ensures n < |input| ==> input[n] == '/'
  {
    1 + IndexOf(input[1..], '/')
  }

  predicate IsDotSegment(seg: string) {
    seg == "." || seg == ".."
  }

  /** The loop of section 5.2.4 over its input and output buffers. Rules A and
      D only apply to a buffer that does not start with '/', rules B and C only
      to one that does; a buffer starting with "/." or "/.." is read as its
      first segment `/.` or `/..`, followed by '/' or the end. */
  function RemoveDotsLoop(input: string, output: string): string
    decreases |input|
  {
    if input == "" then output
    else if input[0] != '/' then
      if StartsWith(input, "../") then RemoveDotsLoop(input[3..], output)        // A
      else if StartsWith(input, "./") then RemoveDotsLoop(input[2..], output)    // A
      else if IsDotSegment(input) then output                                    // D
      else
        var n := FirstSegmentLength(input);
        RemoveDotsLoop(input[n..], output + input[..n])                         // E
    else
      var n := FirstSegmentLength(input);
      var rest := if n < |input| then input[n..] else "/";
      if input[1..n] == "." then RemoveDotsLoop(rest, output)                    // B
      else if input[1..n] == ".." then RemoveDotsLoop(rest, DropLastSegment(output)) // C
      else RemoveDotsLoop(input[n..], output + input[..n])                      // E
  }

  function RemoveDotSegments(path: string): string {
    RemoveDotsLoop(path, "")
  }

  /** An absolute path made of `/segment` pieces none of which is `.` or `..`
      (read from the back, the way rule C removes them). */
  predicate CleanAbsolute(p: string)
    decreases |p|
  {
    p == "" ||
    match LastSlash(p)
    case None => false
    case Some(i) => !IsDotSegment(p[i + 1..]) && CleanAbsolute(p[..i])
  }

  lemma {:induction false} LastSlashOf(p: string, seg: string)
    requires '/' !in seg
    ensures LastSlash(p + "/" + seg) == Some(|p|)
    decreases |seg|
  {
    var q := p + "/" + seg;
    if |seg| > 0 {
      assert q[..|q| - 1] == p + "/" + seg[..|seg| - 1];
      LastSlashOf(p, seg[..|seg| - 1]);
    }
  }

  /** Appending one clean segment keeps an absolute path clean. */
  lemma CleanAbsoluteSnoc(p: string, seg: string)
    requires CleanAbsolute(p)
    requires '/' !in seg && !IsDotSegment(seg)
    ensures CleanAbsolute(p + "/" + seg)
  {
    var q := p + "/" + seg;
    LastSlashOf(p, seg);
    assert q[|p| + 1..] == seg;
    assert q[..|p|] == p;
  }

  /** Read from the front, a clean path is a clean first segment followed by a
      clean path. */
  lemma {:induction false} CleanAbsoluteFront(p: string)
    requires CleanAbsolute(p) && p != ""
    ensures p[0] == '/'
    ensures var n := FirstSegmentLength(p); !IsDotSegment(p[1..n]) && CleanAbsolute(p[n..])
    decreases |p|
  {
    var i := LastSlash(p).value;
    var q := p[..i];
    var last := p[i + 1..];
    assert p == q + "/" + last;
    if q == "" {
      SingleSegmentFront(p, last);
    } else {
      CleanAbsoluteFront(q);
      SnocFront(p, q, last);
    }
  }

  lemma SingleSegmentFront(p: string, last: string)
    requires p == "/" + last && '/' !in last && !IsDotSegment(last)
    ensures p[0] == '/'
    ensures var n := FirstSegmentLength(p); !IsDotSegment(p[1..n]) && CleanAbsolute(p[n..])
  {
    assert p[1..] == last;
    IndexOfAbsent(p[1..], '/');
  }

  lemma SnocFront(p: string, q: string, last: string)
    requires p == q + "/" + last && '/' !in last && !IsDotSegment(last)
    requires q != "" && q[0] == '/'
    requires var m := FirstSegmentLength(q); !IsDotSegment(q[1..m]) && CleanAbsolute(q[m..])
    ensures p[0] == '/'
    ensures var n := FirstSegmentLength(p); !IsDotSegment(p[1..n]) && CleanAbsolute(p[n..])
  {
    var m := FirstSegmentLength(q);
    FrontOfSnoc(q, last);
    assert p[1..m] == q[1..m];
    assert p[m..] == q[m..] + "/" + last;
    CleanAbsoluteSnoc(q[m..], last);
  }

  lemma FrontOfSnoc(q: string, last: string)
    requires q != ""
    ensures FirstSegmentLength(q + "/" + last) == FirstSegmentLength(q)
  {
    var p := q + "/" + last;
    var m := FirstSegmentLength(q);
    assert p[1..] == q[1..] + "/" + last;
    if m < |q| {
      assert q[1..] == q[1..m] + ['/'] + q[m + 1..];
      assert p[1..] == q[1..m] + ['/'] + (q[m + 1..] + "/" + last);
      IndexOfAfterPrefix(q[1..m], '/', q[m + 1..] + "/" + last);
    } else {
      assert q[1..] == q[1..m];
      assert p[1..] == q[1..m] + ['/'] + last;
      IndexOfAfterPrefix(q[1..m], '/', last);
    }
  }

  /** Rule E moves a segment that is neither `.` nor `..`. */
  lemma MoveSegmentClean(input: string, output: string)
    requires input != "" && input[0] == '/'
    requires CleanAbsolute(output)
    requires var n := FirstSegmentLength(input); !IsDotSegment(input[1..n])
    ensures var n := FirstSegmentLength(input);
      CleanAbsolute(output + input[..n]) && (input[n..] == "" || input[n..][0] == '/')
  {
    var n := FirstSegmentLength(input);
    var seg := input[1..n];
    assert input[..n] == "/" + seg;
    CleanAbsoluteSnoc(output, seg);
    assert output + input[..n] == output + "/" + seg;
    if n < |input| {
      assert input[n..][0] == input[n];
    }
  }

  /** Every output the loop builds from an absolute input is clean. */
  lemma {:induction false} RemoveDotsLoopClean(input: string, output: string)
    requires input == "" || input[0] == '/'
    requires CleanAbsolute(output)
    ensures CleanAbsolute(RemoveDotsLoop(input, output))
    decreases |input|
  {
    if input != "" {
      var n := FirstSegmentLength(input);
      var rest := if n < |input| then input[n..] else "/";
      if input[1..n] == "." {
        RemoveDotsLoopClean(rest, output);
      } else if input[1..n] == ".." {
        RemoveDotsLoopClean(rest, DropLastSegment(output));
      } else {
        MoveSegmentClean(input, output);
        RemoveDotsLoopClean(input[n..], output + input[..n]);
      }
    }
  }

  /** remove_dot_segments leaves no `.` or `..` segment in an absolute path. */
  lemma RemoveDotSegmentsClean(path: string)
    requires path == "" || path[0] == '/'
    ensures CleanAbsolute(RemoveDotSegments(path))
  {
    RemoveDotsLoopClean(path, "");
  }

  /** A clean path passes through the loop unchanged. */
  lemma {:induction false} RemoveDotsLoopKeepsClean(input: string, output: string)
    requires CleanAbsolute(input)
    ensures RemoveDotsLoop(input, output) == output + input
    decreases |input|
  {
    if input == "" {
      assert output + input == output;
    } else {
      CleanAbsoluteFront(input);
      var n := FirstSegmentLength(input);
      MoveSegmentStep(input, output);
      RemoveDotsLoopKeepsClean(input[n..], output + input[..n]);
      SplitAt(input, n);
      ConcatAssoc(output, input[..n], input[n..]);
    }
  }

  /** Rule E on a segment that is neither `.` nor `..`. */
  lemma MoveSegmentStep(input: string, output: string)
    requires input != "" && input[0] == '/'
    requires var n := FirstSegmentLength(input); !IsDotSegment(input[1..n])
    ensures var n := FirstSegmentLength(input);
      RemoveDotsLoop(input, output) == RemoveDotsLoop(input[n..], output + input[..n])
  {
  }

  /** remove_dot_segments is the identity on clean paths, and so it is
      idempotent on absolute paths. */
  lemma RemoveDotSegmentsIdempotent(path: string)
    requires path == "" || path[0] == '/'
    ensures RemoveDotSegments(RemoveDotSegments(path)) == RemoveDotSegments(path)
  {
    RemoveDotSegmentsClean(path);
    RemoveDotsLoopKeepsClean(RemoveDotSegments(path), "");
    assert "" + RemoveDotSegments(path) == RemoveDotSegments(path);
  }

  /** remove_dot_segments only ever keeps characters it was given. */
  lemma {:induction false} RemoveDotsLoopChars(input: string, output: string, c: char)
    requires c in RemoveDotsLoop(input, output)
    ensures c in input || c in output
    decreases |input|
  {
    if input == "" {
    } else if input[0] != '/' {
      if StartsWith(input, "../") {
        RemoveDotsLoopChars(input[3..], output, c);
      } else if StartsWith(input, "./") {
        RemoveDotsLoopChars(input[2..], output, c);
      } else if !IsDotSegment(input) {
        var n := FirstSegmentLength(input);
        RemoveDotsLoopChars(input[n..], output + input[..n], c);
      }
    } else {
      var n := FirstSegmentLength(input);
      var rest := if n < |input| then input[n..] else "/";
      assert input[0] == '/';
      if input[1..n] == "." {
        RemoveDotsLoopChars(rest, output, c);
      } else if input[1..n] == ".." {
        RemoveDotsLoopChars(rest, DropLastSegment(output), c);
      } else {
        RemoveDotsLoopChars(input[n..], output + input[..n], c);
      }
    }
  }

  lemma RemoveDotSegmentsChars(path: string, c: char)
    requires c in RemoveDotSegments(path)
    ensures c in path
  {
    RemoveDotsLoopChars(path, "", c);
  }

  /** remove_dot_segments never empties an absolute path: the last `/..`
      or `/.` still leaves "/" (section 5.2.4 gives "/" for "/.."). */
  lemma {:induction false} RemoveDotsLoopRooted(input: string, output: string)
    requires input != "" && input[0] == '/'
    ensures RemoveDotsLoop(input, output) != ""
    decreases |input|
  {
    var n := FirstSegmentLength(input);
    var rest := if n < |input| then input[n..] else "/";
    if input[1..n] == "." {
      RemoveDotsLoopRooted(rest, output);
    } else if input[1..n] == ".." {
      RemoveDotsLoopRooted(rest, DropLastSegment(output));
    } else if n < |input| {
      RemoveDotsLoopRooted(input[n..], output + input[..n]);
    } else {
      assert input[n..] == "";
    }
  }

  lemma RemoveDotSegmentsRooted(path: string)
    requires path != "" && path[0] == '/'
    ensures RemoveDotSegments(path) != ""
  {
    RemoveDotsLoopRooted(path, "");
  }

  /** A clean path is empty or absolute. */
  lemma CleanAbsoluteIsAbsolute(p: string)
    requires CleanAbsolute(p)
    ensures p == "" || p[0] == '/'
  {
    if p != "" {
      CleanAbsoluteFront(p);
    }
  }

  // ---------------------------------------------------------------------------
  // Sections 5.2.2 and 5.2.3: transform references

  /** Section 5.2.3: the reference path is appended to all but the last
      segment of the base path; a base with an authority and an empty path
      contributes just "/". */
  function Merge(base: Reference, path: string): string {
    if base.authority.Some? && base.path == "" then "/" + path
    else
      match LastSlash(base.path)
      case None => path
      case Some(i) => base.path[..i + 1] + path
  }

  /** Section 5.2.2 (strict: a reference with a scheme is never taken
      relative to a base with the same scheme). */
  function Resolve(base: Reference, r: Reference): Reference {
    if r.scheme.Some? then
      Reference(r.scheme, r.authority, RemoveDotSegments(r.path), r.query, r.fragment)
    else if r.authority.Some? then
      Reference(base.scheme, r.authority, RemoveDotSegments(r.path), r.query, r.fragment)
    else if r.path == "" then
      Reference(base.scheme, base.authority, base.path, if r.query.Some? then r.query else base.query, r.fragment)
    else if r.path[0] == '/' then
      Reference(base.scheme, base.authority, RemoveDotSegments(r.path), r.query, r.fragment)
    else
      Reference(base.scheme, base.authority, RemoveDotSegments(Merge(base, r.path)), r.query, r.fragment)
  }

  /** The result of a join under a base with an authority or an absolute path
      keeps only characters of the two paths. */
  lemma MergeChars(base: Reference, path: string, c: char)
    requires c in Merge(base, path)
    ensures c in base.path || c in path || c == '/'
  {
  }

  /** The empty reference denotes the base itself, without its fragment
      (section 5.4.1 of RFC 3986 lists "" as resolving to the base). */
  lemma ResolveEmpty(base: Reference)
    ensures Resolve(base, Parse("")) == base.(fragment := None)
  {
    assert FirstOf("", PathEnd) == 0;
  }

  /** A reference with a scheme does not depend on the base. */
  lemma ResolveAbsoluteIgnoresBase(b1: Reference, b2: Reference, r: Reference)
    requires r.scheme.Some?
    ensures Resolve(b1, r) == Resolve(b2, r)
  {
  }

  /** A relative reference inherits the base's scheme, and unless it has an
      authority of its own, the base's authority; it always brings its own
      fragment. */
  lemma ResolveInherits(base: Reference, r: Reference)
    requires r.scheme.None?
    ensures Resolve(base, r).scheme == base.scheme
    ensures r.authority.None? ==> Resolve(base, r).authority == base.authority
    ensures r.authority.Some? ==> Resolve(base, r).authority == r.authority
    ensures Resolve(base, r).fragment == r.fragment
  {
  }

  /** Under a base with an authority, any reference with a path of its own
      resolves to a path with no `.` or `..` segment. */
  lemma ResolvedPathClean(base: Reference, r: Reference)
    requires WellFormed(base) && WellFormed(r)
    requires base.authority.Some? && r.scheme.None? && r.path != ""
    ensures CleanAbsolute(Resolve(base, r).path)
  {
    if r.authority.Some? || r.path[0] == '/' {
      RemoveDotSegmentsClean(r.path);
    } else {
      var m := Merge(base, r.path);
      assert m[0] == '/' by {
        if base.path != "" {
          assert base.path[0] == '/';
        }
      }
      RemoveDotSegmentsClean(m);
    }
  }

  /** Under a base with an authority, a relative reference resolves to a
      well-formed reference, whose text therefore parses back to it. */
  lemma ResolveWellFormed(base: Reference, r: Reference)
    requires WellFormed(base) && WellFormed(r)
    requires base.authority.Some? && r.scheme.None?
    ensures WellFormed(Resolve(base, r))
    ensures Parse(Recompose(Resolve(base, r))) == Resolve(base, r)
  {
    var t := Resolve(base, r);
    if r.path != "" {
      ResolvedPathClean(base, r);
      CleanAbsoluteIsAbsolute(t.path);
      forall k | 0 <= k < |t.path|
        ensures !StopsAt(PathEnd, t.path[k])
      {
        ResolvedPathChars(base, r, t.path[k]);
      }
    }
    ParseRecompose(t);
  }

  lemma ResolvedPathChars(base: Reference, r: Reference, c: char)
    requires WellFormed(base) && WellFormed(r)
    requires r.scheme.None? && r.path != ""
    requires c in Resolve(base, r).path
    ensures !StopsAt(PathEnd, c)
  {
    if r.authority.Some? || r.path[0] == '/' {
      RemoveDotSegmentsChars(r.path, c);
    } else {
      RemoveDotSegmentsChars(Merge(base, r.path), c);
      MergeChars(base, r.path, c);
    }
  }

  /** A parsed component is a piece of the text it was parsed from. */
  lemma ParseChars(s: string, c: char)
    ensures c in Parse(s).path ==> c in s
    ensures Parse(s).query.Some? && c in Parse(s).query.value ==> c in s
    ensures Parse(s).fragment.Some? ==> '#' in s
  {
    RecomposeParse(s);
    var r := Parse(s);
    var qf := OptText("?", r.query) + OptText("#", r.fragment);
    var pre := match r.scheme case None => "" case Some(sc) => sc + ":";
    assert s == pre + OptText("//", r.authority) + (r.path + qf);
    if c in r.path {
      assert c in r.path + qf;
    }
    if r.query.Some? && c in r.query.value {
      assert c in OptText("?", r.query);
      assert c in qf;
      assert c in r.path + qf;
    }
    if r.fragment.Some? {
      assert '#' in OptText("#", r.fragment);
      assert '#' in qf;
      assert '#' in r.path + qf;
    }
  }

  /** A relative reference's resolved path is made of characters of the two
      paths and the '/' a merge adds. */
  lemma ResolvedPathCharsFrom(base: Reference, r: Reference, c: char)
    requires r.scheme.None?
    requires c in Resolve(base, r).path
    ensures c in base.path || c in r.path || c == '/'
  {
    if r.authority.Some? || (r.path != "" && r.path[0] == '/') {
      RemoveDotSegmentsChars(r.path, c);
    } else if r.path != "" {
      RemoveDotSegmentsChars(Merge(base, r.path), c);
      MergeChars(base, r.path, c);
    }
  }

  /** A valid scheme and its ':' are read off the front. */
  lemma ParseWithScheme(scheme: string, hier: string)
    requires |scheme| > 0 && forall k :: 0 <= k < |scheme| ==> !StopsAt(SchemeEnd, scheme[k])
    ensures Parse(scheme + ":" + hier) == ParseAuthorityOn(Some(scheme), hier)
  {
    var s := scheme + ":" + hier;
    assert s == scheme + ([':'] + hier);
    FirstOfAfterPrefix(scheme, [':'] + hier, SchemeEnd);
    assert s[..|scheme|] == scheme && s[|scheme| + 1..] == hier;
  }

  /** An authority is read up to the '/', '?' or '#' that starts the rest. */
  lemma AuthorityOnWith(scheme: Option<string>, authority: string, rest: string)
    requires forall k :: 0 <= k < |authority| ==> !StopsAt(AuthorityEnd, authority[k])
    requires rest == "" || StopsAt(AuthorityEnd, rest[0])
    ensures ParseAuthorityOn(scheme, "//" + authority + rest) == ParsePathOn(scheme, Some(authority), rest)
  {
    var s := "//" + authority + rest;
    assert s[..2] == "//";
    assert s[2..] == authority + rest;
    FirstOfAfterPrefix(authority, rest, AuthorityEnd);
    var j := 2 + |authority|;
    assert s[2..j] == authority && s[j..] == rest;
  }
}

/** URL resolution with qualifier preservation: `resolve` (`resolve.ts`),
    `resolveUrl` (`utils/resolveUrl.ts`) and the static `Alpha.resolve`
    (`Alpha.js`).

    A `lambda://` URL keeps its qualifier where a generic URL keeps its port,
    and the generic parser refuses a port that is not a number. So a lambda base
    is rewritten to `lambda://<name>:0<path>`, the URL is resolved against
    that, and the result is re-parsed and rebuilt around the base's qualifier.

    The generic join (`new URL(url, base)`) is modelled as reference
    resolution (section 5.2 of RFC 3986) plus the checks of the WHATWG URL
    parser that decide whether it throws: the base needs a valid scheme, every
    port must be made of digits, and a base with an opaque path only takes a
    fragment. A thrown exception is `None` throughout. */
module Resolve {
  import opened Wrappers
  import opened Strings
  import G = LambdaUrlGrammar
  import AbsoluteUrl
  import Url
  import LambdaUrlParsers
  import Rfc3986

  // ---------------------------------------------------------------------------
  // The generic join

  /** `[a-zA-Z][a-zA-Z0-9+\-.]*` */
  predicate ValidScheme(s: string) {
    |s| > 0 && AbsoluteUrl.IsAsciiLetter(s[0])
    && forall j :: 1 <= j < |s| ==> AbsoluteUrl.IsSchemeChar(s[j])
  }

  /** The text after the first ':' of an authority is its port, and the WHATWG
      parser fails on a port that is not all digits. */
  predicate ValidPort(authority: Option<string>) {
    authority.None? ||
    var a := authority.value;
    forall j :: IndexOf(a, ':') < j < |a| ==> IsDigit(a[j])
  }

  /** The WHATWG parser reads a scheme only when it is a valid one; otherwise
      the whole text is a relative reference. */
  function ReadReference(url: string): (r: Rfc3986.Reference)
    ensures r.scheme.Some? ==> ValidScheme(r.scheme.value)
    ensures r.scheme.None? && Rfc3986.Parse(url).scheme.None? ==> r == Rfc3986.Parse(url)
  {
    var r := Rfc3986.Parse(url);
    if r.scheme.Some? && !ValidScheme(r.scheme.value) then Rfc3986.ParseAuthorityOn(None, url)
    else r
  }

  /** `new URL(url, base).toString()`, None when it throws. */
  function UrlJoin(url: string, base: string): (r: Option<string>)
    ensures r.Some? ==> Rfc3986.Parse(base).scheme.Some? && ValidScheme(Rfc3986.Parse(base).scheme.value)
    ensures r.Some? ==> ValidPort(Rfc3986.Parse(base).authority)
  {
    var b := Rfc3986.Parse(base);
    var ref := ReadReference(url);
    if b.scheme.None? || !ValidScheme(b.scheme.value) || !ValidPort(b.authority) then None
    else if !ValidPort(ref.authority) then None
    else if ref.scheme.None? && b.authority.None? && !StartsWith(b.path, "/")
         && !(ref.path == "" && ref.query.None? && ref.fragment.Some?) then None
    else Some(Rfc3986.Recompose(Rfc3986.Resolve(b, ref)))
  }

  /** `s.replace(pattern, replacement)` with a string pattern: the first
      occurrence only. */
  function ReplaceFirst(s: string, pattern: string, replacement: string): (r: string)
    ensures StartsWith(s, pattern) ==> r == replacement + s[|pattern|..]
    decreases |s|
  {
    if StartsWith(s, pattern) then replacement + s[|pattern|..]
    else if s == "" then ""
    else [s[0]] + ReplaceFirst(s[1..], pattern, replacement)
  }

  /** Reference resolution of `url` against a base that need not have a
      scheme: how `resolvePathname(url, base)` (a path-only base) and Node's
      legacy `url.resolve(base, url)` are read here. */
  function ReferenceJoin(url: string, base: string): string {
    Rfc3986.Recompose(Rfc3986.Resolve(Rfc3986.Parse(base), Rfc3986.Parse(url)))
  }

  // ---------------------------------------------------------------------------
  // The lambda branch shared by the three resolvers

  /** The base with its qualifier replaced by the port 0. */
  function SanitizedBase(parts: G.LambdaUrl): string {
    G.Scheme + parts.name + ":0" + parts.path
  }

  /** Resolve against the sanitized base, re-parse with `reparse`, and rebuild
      around the original qualifier; a failed re-parse reads `.name` of null
      and throws. */
  function LambdaJoin(url: string, parts: G.LambdaUrl, reparse: string -> Option<G.LambdaUrl>): Option<string> {
    match UrlJoin(url, SanitizedBase(parts))
    case None => None
    case Some(resolved) =>
      match reparse(resolved)
      case None => None
      case Some(p) => Some(G.Scheme + p.name + G.QualifierSuffix(parts.qualifier) + p.path)
  }

  // ---------------------------------------------------------------------------
  // resolve.ts

  const FakeScheme: string := "http"
  const FakeHostName: string := "fake.fake"
  const FakeHost: string := FakeScheme + "://" + FakeHostName

  function ResolveTs(url: string, base: string): (r: Option<string>)
    ensures AbsoluteUrl.IsAbsolute(url) ==> r == Some(url)
    ensures !AbsoluteUrl.IsAbsolute(url) && Url.WithQuery(base).Some? ==> r == LambdaJoin(url, Url.WithQuery(base).value, Url.WithQuery)
  {
    if AbsoluteUrl.IsAbsolute(url) then Some(url)
    else
      match Url.WithQuery(base)
      case Some(parts) => LambdaJoin(url, parts, Url.WithQuery)
      case None =>
        if StartsWith(base, "/") then
          (match UrlJoin(url, FakeHost + base)
           case None => None
           case Some(s) => Some(ReplaceFirst(s, FakeHost, "")))
        else UrlJoin(url, base)
  }

  // ---------------------------------------------------------------------------
  // utils/resolveUrl.ts

  /** `resolveUrl(url, base)`: the outer None is a thrown exception, the inner
      one the value `undefined`. */
  function ResolveUrl(url: Option<string>, base: Option<string>): (r: Option<Option<string>>)
    ensures url.None? ==> r == Some(base)
    ensures url.Some? && (AbsoluteUrl.IsAbsolute(url.value) || base.None?) ==> r == Some(url)
    ensures r.None? ==> url.Some? && base.Some?
  {
    if url.None? then Some(base)
    else if AbsoluteUrl.IsAbsolute(url.value) || base.None? then Some(url)
    else
      match LambdaUrlParsers.ParseWholeUrl(base.value)
      case Some(parts) =>
        (match LambdaJoin(url.value, parts, LambdaUrlParsers.ParseWholeUrl)
         case None => None
         case Some(s) => Some(Some(s)))
      case None =>
        if StartsWith(base.value, "/") then Some(Some(ReferenceJoin(url.value, base.value)))
        else
          match UrlJoin(url.value, base.value)
          case None => None
          case Some(s) => Some(Some(s))
  }

  // ---------------------------------------------------------------------------
  // Alpha.js

  /** The static `Alpha.resolve`, whose parser is the regular expression. */
  function AlphaResolve(url: string, base: string): (r: Option<string>)
    ensures AbsoluteUrl.IsAbsolute(url) ==> r == Some(url)
    ensures LambdaUrlParsers.RegexParse(base).None? ==> r.Some?
  {
    if AbsoluteUrl.IsAbsolute(url) then Some(url)
    else
      match LambdaUrlParsers.RegexParse(base)
      case Some(parts) => LambdaJoin(url, parts, LambdaUrlParsers.RegexParse)
      case None => Some(ReferenceJoin(url, base))
  }

  // ---------------------------------------------------------------------------
  // A lambda base keeps its function and qualifier

  /** The path a `lambda://` front-end hands back: empty, or starting with the
      grammar's '/' or the reattached '?', with no line terminator before the
      first '?'. */
  predicate LambdaPath(p: string) {
    (p == "" || p[0] == '/' || p[0] == '?')
    && forall k :: 0 <= k < IndexOf(p, '?') ==> !G.IsLineTerminator(p[k])
  }

  /** What `parseLambdaUrl` returns is a lambda path with a derivable name and
      qualifier. */
  lemma WithQueryParts(base: string)
    requires Url.WithQuery(base).Some?
    ensures var parts := Url.WithQuery(base).value;
      LambdaPath(parts.path) && (parts.qualifier == "" || G.IsQualifier(parts.qualifier))
      && exists f :: G.ValidForm(f) && G.NameText(f) == parts.name
  {
    var q := IndexOf(base, '?');
    var head := base[..q];
    var u := G.Parse(head).value;
    HeadPathHasNoQuery(head);
    if q < |base| {
      QueryPathIsLambdaPath(u.path, base[q + 1..]);
    } else {
      IndexOfAbsent(u.path, '?');
    }
  }

  lemma QueryPathIsLambdaPath(p: string, query: string)
    requires '?' !in p && (p == "" || G.IsPath(p))
    ensures LambdaPath(p + "?" + query)
  {
    IndexOfAfterPrefix(p, '?', query);
    assert p + "?" + query == p + ['?'] + query;
  }

  /** The grammar's result for a text with no '?' has a derivable name and
      qualifier and a '?'-free path. */
  lemma HeadPathHasNoQuery(head: string)
    requires G.Parse(head).Some? && '?' !in head
    ensures var u := G.Parse(head).value;
      '?' !in u.path && (u.path == "" || G.IsPath(u.path))
      && (u.qualifier == "" || G.IsQualifier(u.qualifier))
      && exists f :: G.ValidForm(f) && G.NameText(f) == u.name
  {
    G.ParseSound(head);
    var u := G.Parse(head).value;
    var f :| G.Derivable(u, f);
    assert G.Serialize(u) == G.Scheme + u.name + G.QualifierSuffix(u.qualifier) + u.path;
  }

  lemma LambdaSchemeIsValid()
    ensures ValidScheme("lambda")
  {
  }

  /** The sanitized base parses with scheme `lambda`, the port 0 in its
      authority, and a path taken from the front of the base's path. */
  lemma SanitizedBaseParse(parts: G.LambdaUrl)
    requires G.IsFunctionName(parts.name)
    requires parts.path == "" || parts.path[0] == '/' || parts.path[0] == '?'
    ensures var b := Rfc3986.Parse(SanitizedBase(parts));
      b.scheme == Some("lambda") && b.authority == Some(parts.name + ":0")
      && |b.path| <= |parts.path| && b.path == parts.path[..|b.path|]
    ensures Rfc3986.Parse(SanitizedBase(parts)) == Rfc3986.ParsePathOn(Some("lambda"), Some(parts.name + ":0"), parts.path)
  {
    var auth := parts.name + ":0";
    var hier := "//" + auth + parts.path;
    SanitizedBaseText(parts);
    Rfc3986.ParseWithScheme("lambda", hier);
    PortZeroAuthority(parts.name);
    Rfc3986.AuthorityOnWith(Some("lambda"), auth, parts.path);
    Rfc3986.PathOnWellFormed(Some("lambda"), Some(auth), parts.path);
  }

  lemma SanitizedBaseText(parts: G.LambdaUrl)
    ensures SanitizedBase(parts) == "lambda" + ":" + ("//" + (parts.name + ":0") + parts.path)
  {
    assert G.Scheme == "lambda" + ":" + "//";
    ConcatAssoc(G.Scheme, parts.name, ":0");
    ConcatRegroup("lambda", ":", "//", parts.name + ":0", parts.path);
  }

  /** A function name with the port 0 is read whole as an authority. */
  lemma PortZeroAuthority(name: string)
    requires G.IsFunctionName(name)
    ensures forall k :: 0 <= k < |name + ":0"| ==> !Rfc3986.StopsAt(Rfc3986.AuthorityEnd, (name + ":0")[k])
  {
    var auth := name + ":0";
    forall k | 0 <= k < |auth|
      ensures !Rfc3986.StopsAt(Rfc3986.AuthorityEnd, auth[k])
    {
      if k < |name| {
        assert auth[k] == name[k] && G.IsNameChar(name[k]);
      } else {
        assert auth[k] == ":0"[k - |name|];
      }
    }
  }

  lemma PortZeroIsValid(name: string)
    requires G.IsFunctionName(name)
    ensures ValidPort(Some(name + ":0"))
  {
    IndexOfAfterPrefix(name, ':', "0");
    assert name + ":0" == name + [':'] + "0";
  }

  /** A relative reference joined to the sanitized base keeps the base's
      scheme and authority, and its path stays a grammar path. */
  lemma {:induction false} JoinAgainstSanitized(url: string, parts: G.LambdaUrl)
    requires G.IsFunctionName(parts.name) && LambdaPath(parts.path)
    requires Rfc3986.Parse(url).scheme.None? && Rfc3986.Parse(url).authority.None?
    requires '#' !in url && forall k :: 0 <= k < |url| ==> !G.IsLineTerminator(url[k])
    ensures var t := Rfc3986.Resolve(Rfc3986.Parse(SanitizedBase(parts)), Rfc3986.Parse(url));
      UrlJoin(url, SanitizedBase(parts)) == Some(Rfc3986.Recompose(t))
      && t.scheme == Some("lambda") && t.authority == Some(parts.name + ":0") && t.fragment.None?
      && (t.path == "" || G.IsPath(t.path)) && '?' !in t.path
  {
    SanitizedJoinDefined(url, parts);
    SanitizedJoinComponents(url, parts);
  }

  lemma SanitizedJoinDefined(url: string, parts: G.LambdaUrl)
    requires G.IsFunctionName(parts.name)
    requires parts.path == "" || parts.path[0] == '/' || parts.path[0] == '?'
    requires Rfc3986.Parse(url).scheme.None? && Rfc3986.Parse(url).authority.None?
    ensures UrlJoin(url, SanitizedBase(parts))
      == Some(Rfc3986.Recompose(Rfc3986.Resolve(Rfc3986.Parse(SanitizedBase(parts)), Rfc3986.Parse(url))))
  {
    var b := Rfc3986.Parse(SanitizedBase(parts));
    SanitizedBaseParse(parts);
    LambdaSchemeIsValid();
    PortZeroIsValid(parts.name);
    assert b.scheme == Some("lambda") && ValidScheme(b.scheme.value);
    assert b.authority == Some(parts.name + ":0") && ValidPort(b.authority);
    var ref := ReadReference(url);
    assert ref == Rfc3986.Parse(url) && ValidPort(ref.authority);
  }

  lemma SanitizedJoinComponents(url: string, parts: G.LambdaUrl)
    requires G.IsFunctionName(parts.name) && LambdaPath(parts.path)
    requires Rfc3986.Parse(url).scheme.None? && Rfc3986.Parse(url).authority.None?
    requires '#' !in url && forall k :: 0 <= k < |url| ==> !G.IsLineTerminator(url[k])
    ensures var t := Rfc3986.Resolve(Rfc3986.Parse(SanitizedBase(parts)), Rfc3986.Parse(url));
      t.scheme == Some("lambda") && t.authority == Some(parts.name + ":0") && t.fragment.None?
      && (t.path == "" || G.IsPath(t.path)) && '?' !in t.path
  {
    var b := Rfc3986.Parse(SanitizedBase(parts));
    var r := Rfc3986.Parse(url);
    SanitizedBaseParse(parts);
    Rfc3986.ParseChars(url, '#');
    assert r.fragment.None?;
    SanitizedJoinPath(url, parts);
  }

  lemma SanitizedJoinPath(url: string, parts: G.LambdaUrl)
    requires G.IsFunctionName(parts.name) && LambdaPath(parts.path)
    requires Rfc3986.Parse(url).scheme.None?
    requires forall k :: 0 <= k < |url| ==> !G.IsLineTerminator(url[k])
    ensures var t := Rfc3986.Resolve(Rfc3986.Parse(SanitizedBase(parts)), Rfc3986.Parse(url));
      (t.path == "" || G.IsPath(t.path)) && '?' !in t.path
  {
    var b := Rfc3986.Parse(SanitizedBase(parts));
    var r := Rfc3986.Parse(url);
    SanitizedBaseParse(parts);
    Rfc3986.ParseWellFormed(SanitizedBase(parts));
    Rfc3986.ParseWellFormed(url);
    ParsedPathHasNoLineTerminator(url);
    ResolvedPathIsGrammarPath(parts, b, r);
  }

  lemma ParsedPathHasNoLineTerminator(url: string)
    requires forall k :: 0 <= k < |url| ==> !G.IsLineTerminator(url[k])
    ensures forall k :: 0 <= k < |Rfc3986.Parse(url).path| ==> !G.IsLineTerminator(Rfc3986.Parse(url).path[k])
  {
    var p := Rfc3986.Parse(url).path;
    forall k | 0 <= k < |p|
      ensures !G.IsLineTerminator(p[k])
    {
      Rfc3986.ParseChars(url, p[k]);
    }
  }

  lemma ResolvedPathIsGrammarPath(parts: G.LambdaUrl, b: Rfc3986.Reference, r: Rfc3986.Reference)
    requires LambdaPath(parts.path)
    requires Rfc3986.WellFormed(b) && Rfc3986.WellFormed(r)
    requires b.authority.Some? && r.scheme.None?
    requires |b.path| <= |parts.path| && b.path == parts.path[..|b.path|]
    requires forall k :: 0 <= k < |r.path| ==> !G.IsLineTerminator(r.path[k])
    ensures var t := Rfc3986.Resolve(b, r); (t.path == "" || G.IsPath(t.path)) && '?' !in t.path
  {
    Rfc3986.ResolveWellFormed(b, r);
    var t := Rfc3986.Resolve(b, r);
    forall k | 0 <= k < |t.path| ensures !G.IsLineTerminator(t.path[k]) {
      ResolvedCharIsPathChar(parts, b, r, t.path[k]);
    }
    assert forall k :: 0 <= k < |t.path| ==> !Rfc3986.StopsAt(Rfc3986.PathEnd, t.path[k]);
  }

  lemma ResolvedCharIsPathChar(parts: G.LambdaUrl, b: Rfc3986.Reference, r: Rfc3986.Reference, c: char)
    requires LambdaPath(parts.path)
    requires |b.path| <= |parts.path| && b.path == parts.path[..|b.path|]
    requires forall k :: 0 <= k < |b.path| ==> !Rfc3986.StopsAt(Rfc3986.PathEnd, b.path[k])
    requires r.scheme.None? && forall k :: 0 <= k < |r.path| ==> !G.IsLineTerminator(r.path[k])
    requires c in Rfc3986.Resolve(b, r).path
    ensures !G.IsLineTerminator(c)
  {
    Rfc3986.ResolvedPathCharsFrom(b, r, c);
    if c in b.path {
      var k :| 0 <= k < |b.path| && b.path[k] == c;
      assert k < IndexOf(parts.path, '?') by {
        forall j | 0 <= j <= k ensures parts.path[j] != '?' {
          assert parts.path[j] == b.path[j];
        }
      }
    }
  }

  /** The text of the joined reference, as a lambda URL with qualifier `0`. */
  lemma JoinedText(name: string, t: Rfc3986.Reference)
    requires t.scheme == Some("lambda") && t.authority == Some(name + ":0") && t.fragment.None?
    ensures Rfc3986.Recompose(t) == G.Serialize(G.LambdaUrl(name, "0", t.path)) + Rfc3986.OptText("?", t.query)
    ensures Rfc3986.PathText(t) == t.path + Rfc3986.OptText("?", t.query)
  {
    var qs := Rfc3986.OptText("?", t.query);
    assert Rfc3986.PathText(t) == t.path + qs;
    assert Rfc3986.HierText(t) == "//" + (name + ":0") + (t.path + qs);
    assert G.QualifierSuffix("0") == ":0";
  }

  /** The joined text re-parses with the sanitized qualifier `0` and the
      joined path and query as its path. */
  lemma ReparseJoined(name: string, t: Rfc3986.Reference)
    requires G.IsFunctionName(name)
    requires t.scheme == Some("lambda") && t.authority == Some(name + ":0") && t.fragment.None?
    requires (t.path == "" || G.IsPath(t.path)) && '?' !in t.path
    ensures Url.WithQuery(Rfc3986.Recompose(t)) == Some(G.LambdaUrl(name, "0", Rfc3986.PathText(t)))
  {
    var u := G.LambdaUrl(name, "0", t.path);
    BareDerivable(name, "0", t.path);
    JoinedText(name, t);
    Url.WithQuerySuffixRoundTrip(u, G.Bare(name), Rfc3986.OptText("?", t.query));
  }

  lemma BareDerivable(name: string, qualifier: string, path: string)
    requires G.IsFunctionName(name) && (qualifier == "" || G.IsQualifier(qualifier))
    requires path == "" || G.IsPath(path)
    ensures G.Derivable(G.LambdaUrl(name, qualifier, path), G.Bare(name))
  {
    assert G.NameText(G.Bare(name)) == Join([name], ":") == name;
  }

  /** The rebuilt URL parses back with the base's own qualifier. */
  lemma ReparseRebuilt(name: string, qualifier: string, path: string, qs: string)
    requires G.IsFunctionName(name) && (qualifier == "" || G.IsQualifier(qualifier))
    requires (path == "" || G.IsPath(path)) && '?' !in path
    requires qs == "" || qs[0] == '?'
    ensures Url.WithQuery(G.Scheme + name + G.QualifierSuffix(qualifier) + (path + qs))
      == Some(G.LambdaUrl(name, qualifier, path + qs))
  {
    var u := G.LambdaUrl(name, qualifier, path);
    BareDerivable(name, qualifier, path);
    assert G.Scheme + name + G.QualifierSuffix(qualifier) + (path + qs) == G.Serialize(u) + qs;
    Url.WithQuerySuffixRoundTrip(u, G.Bare(name), qs);
  }

  /** `resolve` against a `lambda://` base named by a plain function name: a
      relative reference never throws, and the result names the same function
      with the base's own qualifier, whatever the qualifier was; its path and
      query are those the generic join gives against the sanitized base. */
  lemma {:induction false} ResolveTsKeepsTarget(url: string, base: string)
    requires Url.WithQuery(base).Some? && G.IsFunctionName(Url.WithQuery(base).value.name)
    requires !AbsoluteUrl.IsAbsolute(url)
    requires Rfc3986.Parse(url).scheme.None? && Rfc3986.Parse(url).authority.None?
    requires '#' !in url && forall k :: 0 <= k < |url| ==> !G.IsLineTerminator(url[k])
    ensures ResolveTs(url, base).Some?
    ensures var parts := Url.WithQuery(base).value;
      var t := Rfc3986.Resolve(Rfc3986.Parse(SanitizedBase(parts)), Rfc3986.Parse(url));
      Url.WithQuery(ResolveTs(url, base).value)
        == Some(G.LambdaUrl(parts.name, parts.qualifier, Rfc3986.PathText(t)))
  {
    var parts := Url.WithQuery(base).value;
    assert ResolveTs(url, base) == LambdaJoin(url, parts, Url.WithQuery);
    WithQueryParts(base);
    var t := LambdaJoinAgainstTarget(url, parts);
    var qs := Rfc3986.OptText("?", t.query);
    ReparseRebuilt(parts.name, parts.qualifier, t.path, qs);
  }

  /** The lambda branch with the grammar front-end as re-parser. */
  lemma LambdaJoinAgainstTarget(url: string, parts: G.LambdaUrl) returns (t: Rfc3986.Reference)
    requires G.IsFunctionName(parts.name) && LambdaPath(parts.path)
    requires Rfc3986.Parse(url).scheme.None? && Rfc3986.Parse(url).authority.None?
    requires '#' !in url && forall k :: 0 <= k < |url| ==> !G.IsLineTerminator(url[k])
    ensures t == Rfc3986.Resolve(Rfc3986.Parse(SanitizedBase(parts)), Rfc3986.Parse(url))
    ensures (t.path == "" || G.IsPath(t.path)) && '?' !in t.path
    ensures Rfc3986.PathText(t) == t.path + Rfc3986.OptText("?", t.query)
    ensures LambdaJoin(url, parts, Url.WithQuery)
      == Some(G.Scheme + parts.name + G.QualifierSuffix(parts.qualifier) + Rfc3986.PathText(t))
  {
    t := Rfc3986.Resolve(Rfc3986.Parse(SanitizedBase(parts)), Rfc3986.Parse(url));
    JoinAgainstSanitized(url, parts);
    ReparseJoined(parts.name, t);
    JoinedText(parts.name, t);
  }

  // ---------------------------------------------------------------------------
  // resolveUrl and Alpha.resolve keep the function and qualifier too

  predicate NoLineTerminator(s: string) {
    forall k :: 0 <= k < |s| ==> !G.IsLineTerminator(s[k])
  }

  /** `resolveUrl` against a `lambda://` base named by a plain function name:
      a relative reference gives the same function with the base's own
      qualifier, whatever the qualifier was, and the path and query of the
      join against the sanitized base. The one reference excluded, a bare
      query against a base without a path, throws
      (ResolveUrlBareQueryThrows). */
  lemma {:induction false} ResolveUrlKeepsTarget(url: string, base: string)
    requires LambdaUrlParsers.ParseWholeUrl(base).Some?
    requires G.IsFunctionName(LambdaUrlParsers.ParseWholeUrl(base).value.name)
    requires !AbsoluteUrl.IsAbsolute(url)
    requires Rfc3986.Parse(url).scheme.None? && Rfc3986.Parse(url).authority.None?
    requires '#' !in url && forall k :: 0 <= k < |url| ==> !G.IsLineTerminator(url[k])
    requires !StartsWith(url, "?") || LambdaUrlParsers.ParseWholeUrl(base).value.path != ""
    ensures ResolveUrl(Some(url), Some(base)).Some? && ResolveUrl(Some(url), Some(base)).value.Some?
    ensures var parts := LambdaUrlParsers.ParseWholeUrl(base).value;
      var t := Rfc3986.Resolve(Rfc3986.Parse(SanitizedBase(parts)), Rfc3986.Parse(url));
      LambdaUrlParsers.ParseWholeUrl(ResolveUrl(Some(url), Some(base)).value.value)
        == Some(G.LambdaUrl(parts.name, parts.qualifier, Rfc3986.PathText(t)))
  {
    var parts := LambdaUrlParsers.ParseWholeUrl(base).value;
    var t := LambdaJoinReparses(url, parts);
    var v := G.LambdaUrl(parts.name, parts.qualifier, Rfc3986.PathText(t));
    assert ResolveUrl(Some(url), Some(base)) == Some(Some(G.Serialize(v)));
    G.ParseSerialize(v, G.Bare(parts.name));
  }

  /** The static `Alpha.resolve` against any base the regular expression
      reads: a relative reference gives the same function with the base's own
      qualifier, and the path and query of the join against the sanitized
      base; the bare query against a base without a path throws
      (AlphaResolveBareQueryThrows). */
  lemma {:induction false} AlphaResolveKeepsTarget(url: string, base: string)
    requires LambdaUrlParsers.RegexParse(base).Some?
    requires !AbsoluteUrl.IsAbsolute(url)
    requires Rfc3986.Parse(url).scheme.None? && Rfc3986.Parse(url).authority.None?
    requires '#' !in url && forall k :: 0 <= k < |url| ==> !G.IsLineTerminator(url[k])
    requires !StartsWith(url, "?") || LambdaUrlParsers.RegexParse(base).value.path != ""
    ensures AlphaResolve(url, base).Some?
    ensures var parts := LambdaUrlParsers.RegexParse(base).value;
      var t := Rfc3986.Resolve(Rfc3986.Parse(SanitizedBase(parts)), Rfc3986.Parse(url));
      LambdaUrlParsers.RegexParse(AlphaResolve(url, base).value)
        == Some(G.LambdaUrl(parts.name, parts.qualifier, Rfc3986.PathText(t)))
  {
    var parts := LambdaUrlParsers.RegexParse(base).value;
    LambdaUrlParsers.RegexParseDerivable(base);
    var t := LambdaJoinReparses(url, parts);
    var v := G.LambdaUrl(parts.name, parts.qualifier, Rfc3986.PathText(t));
    assert AlphaResolve(url, base) == Some(G.Serialize(v));
    LambdaUrlParsers.RegexParseSerialize(v, "");
    assert G.Serialize(v) + "" == G.Serialize(v);
  }

  /** `resolveUrl` against a `lambda://` base without a path: a bare query
      joins to `lambda://name:0?query`, which the grammar refuses, so reading
      `.name` of the missing result throws. */
  lemma {:induction false} ResolveUrlBareQueryThrows(url: string, base: string)
    requires LambdaUrlParsers.ParseWholeUrl(base).Some?
    requires G.IsFunctionName(LambdaUrlParsers.ParseWholeUrl(base).value.name)
    requires LambdaUrlParsers.ParseWholeUrl(base).value.path == ""
    requires !AbsoluteUrl.IsAbsolute(url) && StartsWith(url, "?")
    requires Rfc3986.Parse(url).scheme.None? && Rfc3986.Parse(url).authority.None? && '#' !in url
    ensures ResolveUrl(Some(url), Some(base)).None?
  {
    var parts := LambdaUrlParsers.ParseWholeUrl(base).value;
    var q := BareQueryJoin(url, parts);
    QualifiedQueryRefused(parts.name, q);
  }

  /** The same for `Alpha.resolve`, whose regular expression refuses the
      joined text too. */
  lemma {:induction false} AlphaResolveBareQueryThrows(url: string, base: string)
    requires LambdaUrlParsers.RegexParse(base).Some? && LambdaUrlParsers.RegexParse(base).value.path == ""
    requires !AbsoluteUrl.IsAbsolute(url) && StartsWith(url, "?")
    requires Rfc3986.Parse(url).scheme.None? && Rfc3986.Parse(url).authority.None? && '#' !in url
    ensures AlphaResolve(url, base).None?
  {
    var parts := LambdaUrlParsers.RegexParse(base).value;
    LambdaUrlParsers.RegexParseDerivable(base);
    var q := BareQueryJoin(url, parts);
    QualifiedQueryRefused(parts.name, q);
  }

  /** `resolve`, which splits the query off before parsing, takes the same
      bare query that `resolveUrl` throws on. */
  lemma {:induction false} ResolversDifferOnBareQuery(name: string, query: string)
    requires G.IsFunctionName(name) && '#' !in query
    ensures ResolveTs("?" + query, G.Scheme + name) == Some(G.Scheme + name + "?" + query)
    ensures ResolveUrl(Some("?" + query), Some(G.Scheme + name)).None?
  {
    var base := G.Scheme + name;
    var url := "?" + query;
    var parts := G.LambdaUrl(name, "", "");
    BareBaseParses(name);
    BareQueryReference(query);
    ResolveUrlBareQueryThrows(url, base);
    var q := BareQueryJoin(url, parts);
    ResolveTsBareQuery(name, query);
  }

  lemma ResolveTsBareQuery(name: string, query: string)
    requires G.IsFunctionName(name) && '#' !in query
    requires Url.WithQuery(G.Scheme + name) == Some(G.LambdaUrl(name, "", ""))
    requires !AbsoluteUrl.IsAbsolute("?" + query)
    requires UrlJoin("?" + query, SanitizedBase(G.LambdaUrl(name, "", ""))) == Some(G.Scheme + name + ":0" + ("?" + query))
    ensures ResolveTs("?" + query, G.Scheme + name) == Some(G.Scheme + name + "?" + query)
  {
    var parts := G.LambdaUrl(name, "", "");
    var joined := G.Scheme + name + ":0" + ("?" + query);
    var result := G.Scheme + name + "?" + query;
    BareQueryReparses(name, query);
    LambdaJoinValue("?" + query, parts, joined, G.LambdaUrl(name, "0", "?" + query));
    UnqualifiedText(name, query);
    assert LambdaJoin("?" + query, parts, Url.WithQuery) == Some(result);
    ResolveTsLambdaBranch("?" + query, G.Scheme + name, parts, result);
  }

  lemma UnqualifiedText(name: string, query: string)
    ensures G.Scheme + name + G.QualifierSuffix("") + ("?" + query) == G.Scheme + name + "?" + query
  {
    assert G.QualifierSuffix("") == "";
  }

  lemma ResolveTsLambdaBranch(url: string, base: string, parts: G.LambdaUrl, result: string)
    requires !AbsoluteUrl.IsAbsolute(url) && Url.WithQuery(base) == Some(parts)
    requires LambdaJoin(url, parts, Url.WithQuery) == Some(result)
    ensures ResolveTs(url, base) == Some(result)
  {
  }

  lemma BareQueryReparses(name: string, query: string)
    requires G.IsFunctionName(name)
    ensures Url.WithQuery(G.Scheme + name + ":0" + ("?" + query)) == Some(G.LambdaUrl(name, "0", "?" + query))
  {
    var t := Rfc3986.Reference(Some("lambda"), Some(name + ":0"), "", Some(query), None);
    RecomposeBareQuery(name, query);
    ReparseJoined(name, t);
    assert Rfc3986.PathText(t) == "?" + query;
  }

  lemma LambdaJoinValue(url: string, parts: G.LambdaUrl, joined: string, p: G.LambdaUrl)
    requires UrlJoin(url, SanitizedBase(parts)) == Some(joined)
    requires Url.WithQuery(joined) == Some(p)
    ensures LambdaJoin(url, parts, Url.WithQuery) == Some(G.Scheme + p.name + G.QualifierSuffix(parts.qualifier) + p.path)
  {
  }

  lemma BareBaseParses(name: string)
    requires G.IsFunctionName(name)
    ensures LambdaUrlParsers.ParseWholeUrl(G.Scheme + name) == Some(G.LambdaUrl(name, "", ""))
    ensures Url.WithQuery(G.Scheme + name) == Some(G.LambdaUrl(name, "", ""))
  {
    var parts := G.LambdaUrl(name, "", "");
    BareDerivable(name, "", "");
    assert G.Serialize(parts) == G.Scheme + name;
    G.ParseSerialize(parts, G.Bare(name));
    Url.WithQueryNoQueryRoundTrip(parts, G.Bare(name));
  }

  lemma BareQueryReference(query: string)
    requires '#' !in query
    ensures Rfc3986.Parse("?" + query) == Rfc3986.Reference(None, None, "", Some(query), None)
    ensures !AbsoluteUrl.IsAbsolute("?" + query)
  {
    var s := "?" + query;
    assert Rfc3986.FirstOf(s, Rfc3986.SchemeEnd) == 0;
    assert !StartsWith(s, "//");
    assert Rfc3986.FirstOf(s, Rfc3986.PathEnd) == 0;
    assert s[0..] == s && s[1..] == query;
    IndexOfAbsent(query, '#');
    assert s[1..1 + |query|] == query && s[1 + |query|..] == "";
    assert s[0] == '?';
  }

  lemma RecomposeBareQuery(name: string, q: string)
    ensures Rfc3986.Recompose(Rfc3986.Reference(Some("lambda"), Some(name + ":0"), "", Some(q), None))
      == G.Scheme + name + ":0" + ("?" + q)
  {
    assert G.Scheme == "lambda" + ":" + "//";
  }

  /** A bare query against a pathless lambda base joins to the sanitized base
      followed by the query. */
  lemma BareQueryJoin(url: string, parts: G.LambdaUrl) returns (q: string)
    requires G.Derivable(parts, G.Bare(parts.name)) && parts.path == ""
    requires StartsWith(url, "?")
    requires Rfc3986.Parse(url).scheme.None? && Rfc3986.Parse(url).authority.None? && '#' !in url
    ensures Rfc3986.Parse(url).query == Some(q)
    ensures UrlJoin(url, SanitizedBase(parts)) == Some(G.Scheme + parts.name + ":0" + ("?" + q))
  {
    SanitizedJoinDefined(url, parts);
    SanitizedBasePath(parts);
    SanitizedBaseParse(parts);
    ReferencePath(url);
    var r := Rfc3986.Parse(url);
    assert r.path == "" by {
      assert url[0] == '?';
    }
    assert r.query.Some? by {
      assert url[Rfc3986.FirstOf(url, Rfc3986.PathEnd)..][0] == '?';
    }
    q := r.query.value;
    assert r.fragment.None? by {
      Rfc3986.ParseChars(url, '#');
    }
    var t := Rfc3986.Resolve(Rfc3986.Parse(SanitizedBase(parts)), r);
    assert t == Rfc3986.Reference(Some("lambda"), Some(parts.name + ":0"), "", Some(q), None);
    RecomposeBareQuery(parts.name, q);
  }

  /** `lambda://name:0?query`: the qualifier `0` is followed by neither a path
      nor the end, so both whole-text parsers refuse it. */
  lemma QualifiedQueryRefused(name: string, q: string)
    requires G.IsFunctionName(name)
    ensures LambdaUrlParsers.ParseWholeUrl(G.Scheme + name + ":0" + ("?" + q)).None?
    ensures LambdaUrlParsers.RegexParse(G.Scheme + name + ":0" + ("?" + q)).None?
  {
    GrammarRefusesQualifiedQuery(name, q);
    RegexRefusesQualifiedQuery(name, q);
  }

  lemma GrammarRefusesQualifiedQuery(name: string, q: string)
    requires G.IsFunctionName(name)
    ensures G.Parse(G.Scheme + name + ":0" + ("?" + q)).None?
  {
    var s := G.Scheme + name + ":0" + ("?" + q);
    var rest := name + ":0" + ("?" + q);
    ConcatRegroup(G.Scheme, name, ":0", "?", q);
    assert s == G.Scheme + rest;
    assert StartsWith(s, G.Scheme) && s[|G.Scheme|..] == rest;
    var slash := IndexOf(rest, '/');
    assert rest[|name| + 2] == '?';
    forall j | 0 <= j <= |name| + 2 ensures rest[j] != '/' {
      if j < |name| {
        assert rest[j] == name[j];
      }
    }
    assert '?' in rest[..slash] by {
      assert rest[..slash][|name| + 2] == '?';
    }
    HeadWithQuestionMarkRefused(rest[..slash]);
  }

  /** A head holding '?' is no name and qualifier: those are '?'-free. */
  lemma HeadWithQuestionMarkRefused(head: string)
    requires '?' in head
    ensures G.ParseHead(Split(head, ':')).None?
  {
    if G.ParseHead(Split(head, ':')).Some? {
      G.ParseHeadSound(head);
      var fq := G.ParseHead(Split(head, ':')).value;
      NameAndQualifierQuestionFree(fq.0, fq.1);
      assert false;
    }
  }

  lemma NameAndQualifierQuestionFree(f: G.NameForm, q: string)
    requires G.ValidForm(f) && (q == "" || G.IsQualifier(q))
    ensures '?' !in G.NameText(f) + G.QualifierSuffix(q)
  {
    var u := G.LambdaUrl(G.NameText(f), q, "");
    var head := G.NameText(f) + G.QualifierSuffix(q);
    var text := G.Serialize(u);
    assert text == G.Scheme + head + "";
    Url.QuestionMarkFree(u, f);
    forall k | 0 <= k < |head| ensures head[k] != '?' {
      assert text[|G.Scheme| + k] == head[k];
    }
  }

  lemma RegexRefusesQualifiedQuery(name: string, q: string)
    requires G.IsFunctionName(name)
    ensures LambdaUrlParsers.RegexParse(G.Scheme + name + ":0" + ("?" + q)).None?
  {
    var s := G.Scheme + name + ":0" + ("?" + q);
    var i := |G.Scheme|;
    var j := i + |name|;
    ConcatRegroup(G.Scheme, name, ":0", "?", q);
    ThreePieces(s, G.Scheme, name, ":0" + ("?" + q));
    assert s[j] == ':' && s[j + 1] == '0' && s[j + 2] == '?';
    LambdaUrlParsers.NameRunIs(s, i, |name|);
    ZeroThenQuestionMarkRefused(s, j);
  }

  /** After the name, `:0?` is neither a path, nor `$LATEST`, nor a qualifier
      followed by a path. */
  lemma ZeroThenQuestionMarkRefused(s: string, j: nat)
    requires j + 2 < |s| && s[j] == ':' && s[j + 1] == '0' && s[j + 2] == '?'
    ensures LambdaUrlParsers.QualifierAndPath(s, j).None?
  {
    LambdaUrlParsers.NameRunIs(s, j + 1, 1);
    assert !StartsWith(s[j + 1..], G.Latest) by {
      assert s[j + 1..][0] == '0';
    }
  }

  /** The lambda branch with either whole-text re-parser: the grammar of
      `utils/parseLambdaUrl.ts` or the regular expression of `Alpha.js`. */
  lemma LambdaJoinReparses(url: string, parts: G.LambdaUrl) returns (t: Rfc3986.Reference)
    requires G.Derivable(parts, G.Bare(parts.name))
    requires Rfc3986.Parse(url).scheme.None? && Rfc3986.Parse(url).authority.None?
    requires '#' !in url && NoLineTerminator(url)
    requires !StartsWith(url, "?") || parts.path != ""
    ensures t == Rfc3986.Resolve(Rfc3986.Parse(SanitizedBase(parts)), Rfc3986.Parse(url))
    ensures G.Derivable(G.LambdaUrl(parts.name, parts.qualifier, Rfc3986.PathText(t)), G.Bare(parts.name))
    ensures LambdaJoin(url, parts, LambdaUrlParsers.ParseWholeUrl)
      == Some(G.Serialize(G.LambdaUrl(parts.name, parts.qualifier, Rfc3986.PathText(t))))
    ensures LambdaJoin(url, parts, LambdaUrlParsers.RegexParse)
      == Some(G.Serialize(G.LambdaUrl(parts.name, parts.qualifier, Rfc3986.PathText(t))))
  {
    t := Rfc3986.Resolve(Rfc3986.Parse(SanitizedBase(parts)), Rfc3986.Parse(url));
    BareDerivable(parts.name, parts.qualifier, parts.path);
    GrammarPathIsLambdaPath(parts.path);
    JoinAgainstSanitized(url, parts);
    JoinedPathOrNoQuery(url, parts);
    JoinedQueryHasNoLineTerminator(url, parts);
    ReparseJoinedWhole(parts.name, t);
    BareDerivable(parts.name, parts.qualifier, Rfc3986.PathText(t));
  }

  lemma GrammarPathIsLambdaPath(p: string)
    requires p == "" || G.IsPath(p)
    ensures LambdaPath(p) && NoLineTerminator(p)
  {
  }

  /** The joined text re-parses, for either whole-text re-parser, with the
      placeholder qualifier `0` and the joined path and query as its path,
      provided the join has a path or no query. */
  lemma ReparseJoinedWhole(name: string, t: Rfc3986.Reference)
    requires G.IsFunctionName(name)
    requires t.scheme == Some("lambda") && t.authority == Some(name + ":0") && t.fragment.None?
    requires (t.path == "" || G.IsPath(t.path)) && '?' !in t.path
    requires t.path != "" || t.query.None?
    requires t.query.Some? ==> NoLineTerminator(t.query.value)
    ensures LambdaUrlParsers.ParseWholeUrl(Rfc3986.Recompose(t)) == Some(G.LambdaUrl(name, "0", Rfc3986.PathText(t)))
    ensures LambdaUrlParsers.RegexParse(Rfc3986.Recompose(t)) == Some(G.LambdaUrl(name, "0", Rfc3986.PathText(t)))
    ensures Rfc3986.PathText(t) == "" || G.IsPath(Rfc3986.PathText(t))
  {
    var text := Rfc3986.Recompose(t);
    var v := G.LambdaUrl(name, "0", Rfc3986.PathText(t));
    var u := G.LambdaUrl(name, "0", t.path);
    BareDerivable(name, "0", t.path);
    JoinedText(name, t);
    if t.query.None? {
      WholeReparseWithoutQuery(u, text, Rfc3986.PathText(t));
    } else {
      WholeReparseWithQuery(u, t.query.value, text, Rfc3986.PathText(t));
    }
    WholeReparseIsRegex(text, v);
  }

  lemma WholeReparseWithoutQuery(u: G.LambdaUrl, text: string, p: string)
    requires G.Derivable(u, G.Bare(u.name))
    requires text == G.Serialize(u) + "" && p == u.path + ""
    ensures LambdaUrlParsers.ParseWholeUrl(text) == Some(u.(path := p))
  {
    assert text == G.Serialize(u) && p == u.path;
    G.ParseSerialize(u, G.Bare(u.name));
  }

  lemma WholeReparseWithQuery(u: G.LambdaUrl, q: string, text: string, p: string)
    requires G.Derivable(u, G.Bare(u.name)) && u.path != "" && '?' !in u.path
    requires NoLineTerminator(q)
    requires text == G.Serialize(u) + ("?" + q) && p == u.path + ("?" + q)
    ensures LambdaUrlParsers.ParseWholeUrl(text) == Some(u.(path := p))
  {
    assert text == G.Serialize(u) + "?" + q && p == u.path + "?" + q;
    LambdaUrlParsers.WholeUrlKeepsQueryInPath(u, G.Bare(u.name), q);
  }

  /** On a text the grammar reads with a plain function name, the regular
      expression reads the same record. */
  lemma WholeReparseIsRegex(text: string, v: G.LambdaUrl)
    requires LambdaUrlParsers.ParseWholeUrl(text) == Some(v) && G.IsFunctionName(v.name)
    ensures LambdaUrlParsers.RegexParse(text) == Some(v)
    ensures v.path == "" || G.IsPath(v.path)
  {
    G.ParseSound(text);
    LambdaUrlParsers.RegexAgreesWithGrammar(text);
  }

  /** The sanitized base holds no line terminator when the base path holds none. */
  lemma SanitizedBaseHasNoLineTerminator(parts: G.LambdaUrl)
    requires G.IsFunctionName(parts.name) && NoLineTerminator(parts.path)
    ensures NoLineTerminator(SanitizedBase(parts))
  {
    var s := SanitizedBase(parts);
    var pre := G.Scheme + parts.name + ":0";
    assert s == pre + parts.path;
    forall k | 0 <= k < |s| ensures !G.IsLineTerminator(s[k]) {
      if k < |G.Scheme| {
        assert s[k] == G.Scheme[k];
      } else if k < |G.Scheme| + |parts.name| {
        assert s[k] == parts.name[k - |G.Scheme|];
      } else if k < |pre| {
        assert s[k] == ":0"[k - |G.Scheme| - |parts.name|];
      } else {
        assert s[k] == parts.path[k - |pre|];
      }
    }
  }

  /** The query of the join is the reference's or the sanitized base's. */
  lemma JoinedQueryHasNoLineTerminator(url: string, parts: G.LambdaUrl)
    requires G.IsFunctionName(parts.name) && NoLineTerminator(parts.path) && NoLineTerminator(url)
    requires Rfc3986.Parse(url).scheme.None?
    ensures var t := Rfc3986.Resolve(Rfc3986.Parse(SanitizedBase(parts)), Rfc3986.Parse(url));
      t.query.Some? ==> NoLineTerminator(t.query.value)
  {
    var t := Rfc3986.Resolve(Rfc3986.Parse(SanitizedBase(parts)), Rfc3986.Parse(url));
    SanitizedBaseHasNoLineTerminator(parts);
    if t.query.Some? {
      var q := t.query.value;
      forall k | 0 <= k < |q| ensures !G.IsLineTerminator(q[k]) {
        Rfc3986.ParseChars(url, q[k]);
        Rfc3986.ParseChars(SanitizedBase(parts), q[k]);
      }
    }
  }

  /** A reference with neither scheme nor authority is read as a path, which
      is empty only for the empty text, a bare query or a bare fragment. */
  lemma ReferencePath(url: string)
    requires Rfc3986.Parse(url).scheme.None? && Rfc3986.Parse(url).authority.None?
    ensures Rfc3986.Parse(url) == Rfc3986.ParsePathOn(None, None, url)
    ensures Rfc3986.Parse(url).path == "" ==> url == "" || url[0] == '?' || url[0] == '#'
    ensures url == "" ==> Rfc3986.Parse(url).query.None?
  {
  }

  /** The sanitized base has a rooted path exactly when the base has a path,
      and no query when it has none. */
  lemma SanitizedBasePath(parts: G.LambdaUrl)
    requires G.IsFunctionName(parts.name) && (parts.path == "" || parts.path[0] == '/')
    ensures var b := Rfc3986.Parse(SanitizedBase(parts));
      (parts.path == "" ==> b.path == "" && b.query.None?)
      && (parts.path != "" ==> b.path != "" && b.path[0] == '/')
  {
    SanitizedBaseParse(parts);
    if parts.path != "" {
      assert !Rfc3986.StopsAt(Rfc3986.PathEnd, parts.path[0]);
    }
  }

  /** Against a sanitized base the join has a path, unless the reference is
      empty or a bare query and the base has no path; the empty reference
      then has no query either. */
  lemma JoinedPathOrNoQuery(url: string, parts: G.LambdaUrl)
    requires G.IsFunctionName(parts.name) && (parts.path == "" || parts.path[0] == '/')
    requires Rfc3986.Parse(url).scheme.None? && Rfc3986.Parse(url).authority.None? && '#' !in url
    requires !StartsWith(url, "?") || parts.path != ""
    ensures var t := Rfc3986.Resolve(Rfc3986.Parse(SanitizedBase(parts)), Rfc3986.Parse(url));
      t.path != "" || t.query.None?
  {
    var b := Rfc3986.Parse(SanitizedBase(parts));
    var r := Rfc3986.Parse(url);
    SanitizedBaseParse(parts);
    SanitizedBasePath(parts);
    ReferencePath(url);
    if r.path == "" {
      if url != "" {
        assert url[0] == '?';
      }
    } else if r.path[0] == '/' {
      Rfc3986.RemoveDotSegmentsRooted(r.path);
    } else {
      MergeIsRooted(b, r.path);
      Rfc3986.RemoveDotSegmentsRooted(Rfc3986.Merge(b, r.path));
    }
  }

  lemma MergeIsRooted(b: Rfc3986.Reference, path: string)
    requires b.authority.Some? && (b.path == "" || b.path[0] == '/')
    ensures Rfc3986.Merge(b, path) != "" && Rfc3986.Merge(b, path)[0] == '/'
  {
    if b.path != "" {
      assert '/' in b.path;
    }
  }

  // ---------------------------------------------------------------------------
  // A path-only base

  /** A scheme and a host that the generic parser reads as such. */
  predicate HostPrefix(scheme: string, host: string) {
    ValidScheme(scheme) && ValidPort(Some(host))
    && (forall k :: 0 <= k < |scheme| ==> !Rfc3986.StopsAt(Rfc3986.SchemeEnd, scheme[k]))
    && (forall k :: 0 <= k < |host| ==> !Rfc3986.StopsAt(Rfc3986.AuthorityEnd, host[k]))
  }

  lemma FakeHostIsHostPrefix()
    ensures HostPrefix(FakeScheme, FakeHostName)
    ensures FakeHost == FakeScheme + ":" + "//" + FakeHostName
  {
    FakeSchemeIsValid();
    FakeHostNameIsValid();
  }

  lemma FakeSchemeIsValid()
    ensures ValidScheme(FakeScheme)
    ensures forall k :: 0 <= k < |FakeScheme| ==> !Rfc3986.StopsAt(Rfc3986.SchemeEnd, FakeScheme[k])
  {
  }

  lemma FakeHostNameIsValid()
    ensures ValidPort(Some(FakeHostName))
    ensures forall k :: 0 <= k < |FakeHostName| ==> !Rfc3986.StopsAt(Rfc3986.AuthorityEnd, FakeHostName[k])
  {
    FakeHostNameHasNoPort();
  }

  lemma FakeHostNameHasNoPort()
    ensures IndexOf(FakeHostName, ':') == |FakeHostName|
  {
    IndexOfAbsent(FakeHostName, ':');
  }

  /** Prefixing a path with a scheme and host only adds them to its
      components. */
  lemma HostedParse(scheme: string, host: string, base: string)
    requires |scheme| > 0 && forall k :: 0 <= k < |scheme| ==> !Rfc3986.StopsAt(Rfc3986.SchemeEnd, scheme[k])
    requires forall k :: 0 <= k < |host| ==> !Rfc3986.StopsAt(Rfc3986.AuthorityEnd, host[k])
    requires base != "" && base[0] == '/'
    ensures Rfc3986.Parse(scheme + ":" + "//" + host + base)
      == Rfc3986.ParsePathOn(Some(scheme), Some(host), base)
  {
    var hier := "//" + host + base;
    HostedText(scheme, host, base);
    Rfc3986.ParseWithScheme(scheme, hier);
    Rfc3986.AuthorityOnWith(Some(scheme), host, base);
  }

  lemma HostedText(scheme: string, host: string, base: string)
    ensures scheme + ":" + "//" + host + base == scheme + ":" + ("//" + host + base)
  {
  }

  /** The path, query and fragment read from a text do not depend on the
      scheme and authority read before it. */
  lemma PathOnRelabel(scheme: Option<string>, authority: Option<string>, s: string)
    ensures Rfc3986.ParsePathOn(scheme, authority, s)
      == Rfc3986.ParsePathOn(None, None, s).(scheme := scheme, authority := authority)
  {
  }

  /** A text starting with a single '/' is read as a path with neither
      scheme nor authority. */
  lemma PathOnlyParse(base: string)
    requires StartsWith(base, "/") && !StartsWith(base, "//")
    ensures Rfc3986.Parse(base) == Rfc3986.ParsePathOn(None, None, base)
    ensures Rfc3986.Parse(base).path != ""
  {
    assert Rfc3986.FirstOf(base, Rfc3986.SchemeEnd) == 0;
    assert Rfc3986.FirstOf(base, Rfc3986.PathEnd) > 0;
  }

  lemma RecomposeHosted(t: Rfc3986.Reference, scheme: string, host: string)
    requires t.scheme.None? && t.authority.None?
    ensures Rfc3986.Recompose(t.(scheme := Some(scheme), authority := Some(host)))
      == scheme + ":" + "//" + host + Rfc3986.Recompose(t)
  {
  }

  /** The join of `url` against the hosted base is the scheme and host
      followed by the join against the path alone. */
  lemma HostedJoin(url: string, scheme: string, host: string, base: string)
    requires HostPrefix(scheme, host)
    requires StartsWith(base, "/") && !StartsWith(base, "//")
    requires Rfc3986.Parse(url).scheme.None? && Rfc3986.Parse(url).authority.None?
    ensures UrlJoin(url, scheme + ":" + "//" + host + base)
      == Some(scheme + ":" + "//" + host + ReferenceJoin(url, base))
  {
    HostedParse(scheme, host, base);
    PathOnlyParse(base);
    PathOnRelabel(Some(scheme), Some(host), base);
    var b := Rfc3986.Parse(base);
    var r := Rfc3986.Parse(url);
    var hosted := b.(scheme := Some(scheme), authority := Some(host));
    assert ReadReference(url) == r;
    ResolveUnderHost(b, r, scheme, host);
    RecomposeHosted(Rfc3986.Resolve(b, r), scheme, host);
    assert UrlJoin(url, scheme + ":" + "//" + host + base) == Some(Rfc3986.Recompose(Rfc3986.Resolve(hosted, r)));
  }

  /** Giving a base with a non-empty path a scheme and a host only adds them
      to the result of resolving a reference with neither. */
  lemma ResolveUnderHost(b: Rfc3986.Reference, r: Rfc3986.Reference, scheme: string, host: string)
    requires b.scheme.None? && b.authority.None? && b.path != ""
    requires r.scheme.None? && r.authority.None?
    ensures Rfc3986.Resolve(b.(scheme := Some(scheme), authority := Some(host)), r)
      == Rfc3986.Resolve(b, r).(scheme := Some(scheme), authority := Some(host))
  {
    var hosted := b.(scheme := Some(scheme), authority := Some(host));
    assert Rfc3986.Merge(hosted, r.path) == Rfc3986.Merge(b, r.path);
  }

  lemma StartsWithConcat(a: string, b: string)
    ensures StartsWith(a + b, a)
  {
    assert (a + b)[..|a|] == a;
  }

  /** `resolve` against a path-only base: resolving against the fake host and
      removing it again is the same as resolving against the path itself, so
      in this model, where `resolve-pathname` is read as the same join,
      `resolve` and `resolveUrl` agree there. */
  lemma ResolveTsPathBase(url: string, base: string)
    requires StartsWith(base, "/") && !StartsWith(base, "//")
    requires !AbsoluteUrl.IsAbsolute(url)
    requires Rfc3986.Parse(url).scheme.None? && Rfc3986.Parse(url).authority.None?
    ensures ResolveTs(url, base) == Some(ReferenceJoin(url, base))
    ensures ResolveUrl(Some(url), Some(base)) == Some(ResolveTs(url, base))
  {
    NotLambdaBase(base);
    FakeHostIsHostPrefix();
    var joined := ReferenceJoin(url, base);
    HostedJoin(url, FakeScheme, FakeHostName, base);
    assert FakeHost + base == FakeScheme + ":" + "//" + FakeHostName + base;
    assert FakeHost + joined == FakeScheme + ":" + "//" + FakeHostName + joined;
    StartsWithConcat(FakeHost, joined);
    assert (FakeHost + joined)[|FakeHost|..] == joined;
    assert ReplaceFirst(FakeHost + joined, FakeHost, "") == joined;
  }

  /** A base starting with '/' is not a `lambda://` URL for either parser. */
  lemma NotLambdaBase(base: string)
    requires StartsWith(base, "/")
    ensures Url.WithQuery(base).None? && LambdaUrlParsers.ParseWholeUrl(base).None?
    ensures LambdaUrlParsers.RegexParse(base).None?
  {
    var q := IndexOf(base, '?');
    assert !StartsWith(base[..q], G.Scheme) by {
      if q > 0 {
        assert base[..q][0] == '/';
      }
    }
    assert !StartsWith(base, G.Scheme) by {
      assert base[0] == '/';
    }
  }
}

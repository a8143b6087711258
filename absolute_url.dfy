/** `isAbsoluteURL`: a URL is absolute when it starts with a scheme followed by
    `://` (the expression `/^[a-z][a-z\d+\-.]*:\/\//i`) or with `//`. */
module AbsoluteUrl {
  import opened Wrappers
  import opened Strings

  predicate IsAsciiLetter(c: char) {
    ('a' <= c <= 'z') || ('A' <= c <= 'Z')
  }

  /** The characters of `[a-z\d+\-.]` under the case-insensitive flag. */
  predicate IsSchemeChar(c: char) {
    IsAsciiLetter(c) || IsDigit(c) || c == '+' || c == '-' || c == '.'
  }

  /** Length of the run of scheme characters starting at `i`. */
  function SchemeRun(u: string, i: nat): (n: nat)
    requires i <= |u|
    ensures i + n <= |u|
    ensures forall j :: i <= j < i + n ==> IsSchemeChar(u[j])
    ensures i + n < |u| ==> !IsSchemeChar(u[i + n])
    decreases |u| - i
  {
    if i < |u| && IsSchemeChar(u[i]) then 1 + SchemeRun(u, i + 1) else 0
  }

  /** The regular-expression test, run the way the matcher runs it: a letter,
      the longest run of scheme characters, then `://` (a ':' is not a scheme
      character, so the longest run is the only one that can be followed by it). */
  predicate HasScheme(u: string) {
    |u| > 0 && IsAsciiLetter(u[0])
    && var k := 1 + SchemeRun(u, 1);
       k + 3 <= |u| && u[k..k + 3] == "://"
  }

  /** `u[..k]` is a scheme and `://` follows it. */
  predicate SchemeEndsAt(u: string, k: nat) {
    1 <= k && k + 3 <= |u| && IsAsciiLetter(u[0])
    && (forall j :: 1 <= j < k ==> IsSchemeChar(u[j]))
    && u[k..k + 3] == "://"
  }

  /** The shared body of the three `isAbsoluteURL` copies. */
  predicate IsAbsolute(u: string) {
    HasScheme(u) || StartsWith(u, "//")
  }

  /** The scanner accepts exactly the strings the expression describes: some
      prefix is a scheme followed by `://`. */
  lemma HasSchemeIffSomeSchemeEnd(u: string)
    ensures HasScheme(u) <==> exists k: nat :: SchemeEndsAt(u, k)
  {
    if HasScheme(u) {
      assert SchemeEndsAt(u, 1 + SchemeRun(u, 1));
    }
    if exists k: nat :: SchemeEndsAt(u, k) {
      var k: nat :| SchemeEndsAt(u, k);
      var n := SchemeRun(u, 1);
      assert u[k] == ':' && !IsSchemeChar(u[k]);
      assert 1 + n == k;
    }
  }

  /** A scheme or a `//` prefix makes a URL absolute; anything else does not. */
  lemma IsAbsoluteIff(u: string)
    ensures IsAbsolute(u) <==> (exists k: nat :: SchemeEndsAt(u, k)) || (|u| >= 2 && u[0] == '/' && u[1] == '/')
  {
    HasSchemeIffSomeSchemeEnd(u);
    if |u| >= 2 && u[0] == '/' && u[1] == '/' {
      assert u[..2] == "//";
    }
  }

  /** `lambda://` URLs are absolute, and so is any URL with a scheme. */
  lemma SchemePrefixIsAbsolute(scheme: string, rest: string)
    requires |scheme| > 0 && IsAsciiLetter(scheme[0])
    requires forall j :: 1 <= j < |scheme| ==> IsSchemeChar(scheme[j])
    ensures IsAbsolute(scheme + "://" + rest)
  {
    var u := scheme + "://" + rest;
    assert SchemeEndsAt(u, |scheme|);
    HasSchemeIffSomeSchemeEnd(u);
  }

  /** Root-relative and relative paths, and the empty string, are not absolute. */
  lemma PathsAreNotAbsolute(u: string)
    requires u == "" || (u[0] == '/' && (|u| == 1 || u[1] != '/')) || (u[0] != '/' && ':' !in u)
    ensures !IsAbsolute(u)
  {
    assert !HasScheme(u) by {
      if |u| > 0 && IsAsciiLetter(u[0]) {
        var k := 1 + SchemeRun(u, 1);
        if k + 3 <= |u| {
          assert u[k..k + 3][0] == u[k];
        }
      }
    }
    assert !StartsWith(u, "//") by {
      if |u| >= 2 {
        assert u[..2][0] == u[0] && u[..2][1] == u[1];
      }
    }
  }

  /** `utils/isAbsoluteURL.ts` returns `url && (...)`: the falsy input itself
      (undefined or the empty string), or the boolean. */
  datatype JsAbsolute = Undefined | EmptyString | Bool(b: bool)

  predicate Truthy(r: JsAbsolute) {
    r.Bool? && r.b
  }

  function UtilsIsAbsoluteUrl(url: Option<string>): (r: JsAbsolute)
    ensures url.None? ==> r == Undefined
    ensures url == Some("") ==> r == EmptyString
    ensures url.Some? && url.value != "" ==> r.Bool?
    ensures Truthy(r) <==> url.Some? && IsAbsolute(url.value)
  {
    match url
    case None => Undefined
    case Some(u) =>
      if u == "" then
        assert !IsAbsolute(u);
        EmptyString
      else Bool(IsAbsolute(u))
  }
}

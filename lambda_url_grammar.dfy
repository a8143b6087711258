/** The `lambda://` URL grammar (the compiled nearley rule table) and the
    record its postprocessor builds.

      lambdaURL      := "lambda://" anyName [":" qualifier] [path]
      anyName        := functionName | partialArnName | fullArnName
      functionName   := [a-zA-Z0-9-_]+
      qualifier      := "$LATEST" | [a-zA-Z0-9-_]+
      accountId      := [0-9]+
      region         := [a-zA-Z0-9-_]+
      partialArnName := accountId ":function:" functionName
      fullArnName    := "arn:aws:lambda:" region ":" partialArnName
      path           := "/" <any character but a line terminator>*

    The grammar is the generator below (`NameText`, `Serialize`); `Parse` is the
    recogniser, proved to accept exactly the generated strings and to give back
    the generating components. */
module LambdaUrlGrammar {
  import opened Wrappers
  import opened Strings

  /** `{name, qualifier, path}`; an absent qualifier or path is the empty string. */
  datatype LambdaUrl = LambdaUrl(name: string, qualifier: string, path: string)

  /** The three shapes of `anyName`. */
  datatype NameForm =
    | Bare(functionName: string)
    | PartialArn(accountId: string, functionName: string)
    | FullArn(region: string, accountId: string, functionName: string)

  const Scheme: string := "lambda://"
  const Latest: string := "$LATEST"

  predicate IsNameChar(c: char) {
    ('a' <= c <= 'z') || ('A' <= c <= 'Z') || ('0' <= c <= '9') || c == '-' || c == '_'
  }

  /** The characters JavaScript's `.` does not match. */
  predicate IsLineTerminator(c: char) {
    c == '\n' || c == '\r' || c == '\U{2028}' || c == '\U{2029}'
  }

  predicate IsFunctionName(s: string) {
    |s| > 0 && forall k :: 0 <= k < |s| ==> IsNameChar(s[k])
  }

  predicate IsAccountId(s: string) {
    |s| > 0 && forall k :: 0 <= k < |s| ==> IsDigit(s[k])
  }

  predicate IsQualifier(q: string) {
    q == Latest || IsFunctionName(q)
  }

  predicate IsPath(p: string) {
    |p| > 0 && p[0] == '/' && forall k :: 1 <= k < |p| ==> !IsLineTerminator(p[k])
  }

  predicate ValidForm(f: NameForm) {
    match f
    case Bare(fn) => IsFunctionName(fn)
    case PartialArn(acct, fn) => IsAccountId(acct) && IsFunctionName(fn)
    case FullArn(region, acct, fn) => IsFunctionName(region) && IsAccountId(acct) && IsFunctionName(fn)
  }

  /** The ':'-separated pieces of each form of `anyName`: `fn`,
      `acct:function:fn` and `arn:aws:lambda:region:acct:function:fn`. */
  function FormSegments(f: NameForm): seq<string> {
    match f
    case Bare(fn) => [fn]
    case PartialArn(acct, fn) => [acct, "function", fn]
    case FullArn(region, acct, fn) => ["arn", "aws", "lambda", region, acct, "function", fn]
  }

  /** The text `anyName` derives for each form. */
  function NameText(f: NameForm): string {
    Join(FormSegments(f), ":")
  }

  /** The qualifier text as it appears in a URL: nothing, or `:` and the qualifier. */
  function QualifierSuffix(q: string): string {
    if q == "" then "" else ":" + q
  }

  function Serialize(u: LambdaUrl): string {
    Scheme + u.name + QualifierSuffix(u.qualifier) + u.path
  }

  /** A record the grammar can derive from `name` written in form `f`. */
  predicate Derivable(u: LambdaUrl, f: NameForm) {
    ValidForm(f) && NameText(f) == u.name
    && (u.qualifier == "" || IsQualifier(u.qualifier))
    && (u.path == "" || IsPath(u.path))
  }

  // ---------------------------------------------------------------------------
  // Recogniser. Names, qualifiers, account ids and regions hold no ':' and no '/',
  // so the text before the first '/' splits on ':' into 1, 3 or 7 name segments,
  // optionally followed by one qualifier segment.

  /** The name segments of a form, as `anyName` reads them. */
  function NameOfSegments(segs: seq<string>): (r: Option<NameForm>)
    ensures r.Some? ==> ValidForm(r.value) && FormSegments(r.value) == segs
  {
    if |segs| == 1 && IsFunctionName(segs[0]) then Some(Bare(segs[0]))
    else if |segs| == 3 && IsAccountId(segs[0]) && segs[1] == "function" && IsFunctionName(segs[2]) then
      Some(PartialArn(segs[0], segs[2]))
    else if |segs| == 7 && segs[0] == "arn" && segs[1] == "aws" && segs[2] == "lambda"
      && IsFunctionName(segs[3]) && IsAccountId(segs[4]) && segs[5] == "function" && IsFunctionName(segs[6]) then
      Some(FullArn(segs[3], segs[4], segs[6]))
    else None
  }

  /** `anyName [":" qualifier]` over the ':'-segments of the text before the path. */
  function ParseHead(segs: seq<string>): Option<(NameForm, string)>
  {
    match NameOfSegments(segs)
    case Some(f) => Some((f, ""))
    case None =>
      if |segs| >= 2 && IsQualifier(segs[|segs| - 1]) then
        match NameOfSegments(segs[..|segs| - 1])
        case Some(f) => Some((f, segs[|segs| - 1]))
        case None => None
      else None
  }

  /** The part after the scheme: the text before the first '/' is the name and
      qualifier, the rest is the path. */
  function ParseAfterScheme(head: string, path: string): Option<LambdaUrl> {
    if path != "" && !IsPath(path) then None
    else
      match ParseHead(Split(head, ':'))
      case Some((f, q)) => Some(LambdaUrl(NameText(f), q, path))
      case None => None
  }

  /** The grammar's first (and only) result for `s`, or None when the parser
      rejects `s` or ends without a complete parse. */
  function Parse(s: string): Option<LambdaUrl> {
    if !StartsWith(s, Scheme) then None
    else
      var rest := s[|Scheme|..];
      var slash := IndexOf(rest, '/');
      ParseAfterScheme(rest[..slash], rest[slash..])
  }

  // ---------------------------------------------------------------------------
  // Proofs

  lemma NameCharsHaveNoSeparators(s: string)
    requires forall k :: 0 <= k < |s| ==> IsNameChar(s[k])
    ensures ':' !in s && '/' !in s
  {
  }

  lemma DigitsHaveNoSeparators(s: string)
    requires forall k :: 0 <= k < |s| ==> IsDigit(s[k])
    ensures ':' !in s && '/' !in s
  {
  }

  lemma SegmentsHaveNoSeparators(f: NameForm)
    requires ValidForm(f)
    ensures forall k :: 0 <= k < |FormSegments(f)| ==> ':' !in FormSegments(f)[k] && '/' !in FormSegments(f)[k]
  {
    match f
    case Bare(fn) =>
      NameCharsHaveNoSeparators(fn);
    case PartialArn(acct, fn) =>
      DigitsHaveNoSeparators(acct);
      NameCharsHaveNoSeparators(fn);
    case FullArn(region, acct, fn) =>
      NameCharsHaveNoSeparators(region);
      DigitsHaveNoSeparators(acct);
      NameCharsHaveNoSeparators(fn);
  }

  lemma QualifierHasNoSeparators(q: string)
    requires IsQualifier(q)
    ensures ':' !in q && '/' !in q
  {
    if q != Latest {
      NameCharsHaveNoSeparators(q);
    }
  }

  /** The segments of a form are read back as that form. */
  lemma NameOfFormSegments(f: NameForm)
    requires ValidForm(f)
    ensures NameOfSegments(FormSegments(f)) == Some(f)
  {
  }

  /** A name followed by a qualifier never has the segment count of a name alone. */
  lemma HeadWithQualifierIsNotAName(f: NameForm, q: string)
    requires ValidForm(f) && IsQualifier(q)
    ensures NameOfSegments(FormSegments(f) + [q]).None?
  {
  }

  /** The ':'-segments of the name-and-qualifier text. */
  function HeadSegments(f: NameForm, q: string): seq<string> {
    if q == "" then FormSegments(f) else FormSegments(f) + [q]
  }

  lemma {:induction false} HeadSplits(f: NameForm, q: string)
    requires ValidForm(f) && (q == "" || IsQualifier(q))
    ensures Split(NameText(f) + QualifierSuffix(q), ':') == HeadSegments(f, q)
    ensures '/' !in NameText(f) + QualifierSuffix(q)
    ensures ParseHead(HeadSegments(f, q)) == Some((f, q))
  {
    var segs := HeadSegments(f, q);
    SegmentsHaveNoSeparators(f);
    if q != "" {
      JoinSnoc(FormSegments(f), q, ":");
      QualifierHasNoSeparators(q);
    }
    assert NameText(f) + QualifierSuffix(q) == Join(segs, ":");
    assert forall k :: 0 <= k < |segs| ==> ':' !in segs[k] && '/' !in segs[k];
    JoinOmits(segs, ":", '/');
    SplitJoin(segs, ':');
    ParseHeadSegments(f, q);
  }

  lemma ParseHeadSegments(f: NameForm, q: string)
    requires ValidForm(f) && (q == "" || IsQualifier(q))
    ensures ParseHead(HeadSegments(f, q)) == Some((f, q))
  {
    NameOfFormSegments(f);
    if q != "" {
      var segs := FormSegments(f) + [q];
      HeadWithQualifierIsNotAName(f, q);
      assert segs[..|segs| - 1] == FormSegments(f);
      assert segs[|segs| - 1] == q;
    }
  }

  /** A path begins at the first '/' after the scheme. */
  lemma PathStartsAtFirstSlash(head: string, path: string)
    requires '/' !in head
    requires path == "" || path[0] == '/'
    ensures IndexOf(head + path, '/') == |head|
  {
    if path == "" {
      assert head + path == head;
      IndexOfAbsent(head, '/');
    } else {
      assert head + path == head + ['/'] + path[1..];
      IndexOfAfterPrefix(head, '/', path[1..]);
    }
  }

  /** After the scheme, the first '/' separates the name from the path. */
  lemma {:induction false} ParseSplitsAtFirstSlash(head: string, path: string)
    requires '/' !in head
    requires path == "" || path[0] == '/'
    ensures Parse(Scheme + head + path) == ParseAfterScheme(head, path)
  {
    var s := Scheme + head + path;
    var rest := head + path;
    PathStartsAtFirstSlash(head, path);
    assert s == Scheme + rest;
    assert s[..|Scheme|] == Scheme;
    assert s[|Scheme|..] == rest;
    assert rest[..|head|] == head && rest[|head|..] == path;
  }

  /** Round trip: a record derivable by the grammar serialises to a string that
      parses back to exactly that record, for every name style. */
  lemma {:induction false} ParseSerialize(u: LambdaUrl, f: NameForm)
    requires Derivable(u, f)
    ensures Parse(Serialize(u)) == Some(u)
  {
    var head := u.name + QualifierSuffix(u.qualifier);
    var s := Serialize(u);
    assert s == Scheme + head + u.path;
    assert ParseAfterScheme(head, u.path) == Some(u) by {
      HeadSplits(f, u.qualifier);
    }
    assert Parse(s) == ParseAfterScheme(head, u.path) by {
      HeadSplits(f, u.qualifier);
      ParseSplitsAtFirstSlash(head, u.path);
    }
  }

  /** What the head parser accepts is a name and qualifier whose text is the head. */
  lemma {:induction false} ParseHeadSound(head: string)
    requires ParseHead(Split(head, ':')).Some?
    ensures var (f, q) := ParseHead(Split(head, ':')).value;
      ValidForm(f) && (q == "" || IsQualifier(q)) && head == NameText(f) + QualifierSuffix(q)
  {
    var segs := Split(head, ':');
    var (f, q) := ParseHead(segs).value;
    JoinSplit(head, ':');
    if NameOfSegments(segs).Some? {
      assert FormSegments(f) == segs;
    } else {
      QualifiedHeadText(segs, f, q);
    }
  }

  /** The text of a name followed by a qualifier segment. */
  lemma QualifiedHeadText(segs: seq<string>, f: NameForm, q: string)
    requires |segs| >= 2 && q == segs[|segs| - 1] && IsQualifier(q)
    requires FormSegments(f) == segs[..|segs| - 1]
    ensures Join(segs, ":") == NameText(f) + QualifierSuffix(q)
  {
    JoinLast(segs, ":");
    ConcatAssoc(Join(segs[..|segs| - 1], ":"), ":", q);
  }

  lemma {:induction false} ParseAfterSchemeSound(head: string, path: string)
    requires ParseAfterScheme(head, path).Some?
    ensures exists f :: Derivable(ParseAfterScheme(head, path).value, f)
    ensures Serialize(ParseAfterScheme(head, path).value) == Scheme + head + path
  {
    var u := ParseAfterScheme(head, path).value;
    var (f, q) := ParseHead(Split(head, ':')).value;
    assert u == LambdaUrl(NameText(f), q, path) && (path == "" || IsPath(path));
    ParseHeadSound(head);
    ConcatMiddle(Scheme, NameText(f), QualifierSuffix(q), path);
    assert Derivable(u, f);
  }

  /** Soundness: whatever the parser returns is derivable by the grammar and is
      exactly the record the input spells out. */
  lemma {:induction false} ParseSound(s: string)
    requires Parse(s).Some?
    ensures exists f :: Derivable(Parse(s).value, f)
    ensures Serialize(Parse(s).value) == s
  {
    var rest := s[|Scheme|..];
    var slash := IndexOf(rest, '/');
    var head, path := rest[..slash], rest[slash..];
    assert Parse(s) == ParseAfterScheme(head, path);
    ParseAfterSchemeSound(head, path);
    ParseText(s, head, path);
  }

  /** The input is the scheme, the head and the path the parser split it into. */
  lemma ParseText(s: string, head: string, path: string)
    requires StartsWith(s, Scheme)
    requires head == s[|Scheme|..][..IndexOf(s[|Scheme|..], '/')]
    requires path == s[|Scheme|..][IndexOf(s[|Scheme|..], '/')..]
    ensures s == Scheme + head + path
  {
    PrefixAndRest(s, Scheme);
    ConcatAssoc(Scheme, head, path);
  }

  /** The grammar accepts exactly the strings it derives. */
  lemma ParseAcceptsExactlyDerivations(s: string)
    ensures Parse(s).Some? <==> exists u, f :: Derivable(u, f) && Serialize(u) == s
  {
    if Parse(s).Some? {
      ParseSound(s);
      var f :| Derivable(Parse(s).value, f);
      assert Derivable(Parse(s).value, f) && Serialize(Parse(s).value) == s;
    }
    if exists u, f :: Derivable(u, f) && Serialize(u) == s {
      var u, f :| Derivable(u, f) && Serialize(u) == s;
      ParseSerialize(u, f);
    }
  }

  /** Every accepted string starts with `lambda://`. */
  lemma ParseNeedsScheme(s: string)
    requires Parse(s).Some?
    ensures StartsWith(s, Scheme)
  {
  }

  /** The scheme alone is a proper prefix of valid URLs and has no parse. */
  lemma SchemeAloneHasNoParse()
    ensures Parse(Scheme).None?
  {
    var rest := Scheme[|Scheme|..];
    assert rest == "";
    assert Split(rest, ':') == [""];
  }

  /** An ARN whose `function` segment is misspelled is rejected, with or
      without the `arn:aws:lambda:region:` prefix. */
  lemma {:induction false} MisspelledArnRejected(prefix: seq<string>, word: string, fn: string)
    requires |prefix| == 1 || |prefix| == 5
    requires word != "function"
    requires forall k :: 0 <= k < |prefix + [word, fn]| ==> ':' !in (prefix + [word, fn])[k] && '/' !in (prefix + [word, fn])[k]
    ensures Parse(Scheme + Join(prefix + [word, fn], ":")).None?
  {
    var segs := prefix + [word, fn];
    var head := Join(segs, ":");
    JoinOmits(segs, ":", '/');
    SplitJoin(segs, ':');
    assert ParseHead(Split(head, ':')).None? by {
      assert segs[|segs| - 2] == word;
      assert segs[..|segs| - 1] == prefix + [word];
    }
    ParseSplitsAtFirstSlash(head, "");
    assert Scheme + head + "" == Scheme + head;
  }
}

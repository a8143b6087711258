/** The other `lambda://` parsers:
      - `adapters/helpers/parseLambdaUrl.ts`, the query-splitting front-end
        written with `+=`;
      - `utils/parseLambdaUrl.ts`, which feeds the whole URL to the grammar;
      - `adapters/helpers/parseLambdaUrl.js`, the older regular expression
        `^lambda://([a-zA-Z0-9-_]+)(:(\$LATEST|[a-zA-Z0-9-_]+))?(/.*|$)`. */
module LambdaUrlParsers {
  import opened Wrappers
  import opened Strings
  import opened LambdaUrlGrammar
  import Url

  // ---------------------------------------------------------------------------
  // adapters/helpers/parseLambdaUrl.ts

  /** Shift the first '?'-piece off the split, parse it, and append the
      remaining pieces to the path of the first result. */
  method HelperParseLambdaUrl(url: string) returns (r: Option<LambdaUrl>)
    ensures r == Url.WithQuery(url)
  {
    var urlSplitOnQuery := Split(url, '?');
    var head := urlSplitOnQuery[0];
    urlSplitOnQuery := urlSplitOnQuery[1..];
    var parts := Parse(head);
    SplitAtFirst(url, '?');
    if |urlSplitOnQuery| == 0 {
      return parts;
    }
    if parts.None? {
      return None;
    }
    var path := parts.value.path;
    path := path + "?" + Join(urlSplitOnQuery, "?");
    r := Some(parts.value.(path := path));
  }

  // ---------------------------------------------------------------------------
  // utils/parseLambdaUrl.ts

  /** The grammar's first result for the whole input, query included. */
  function ParseWholeUrl(url: string): (r: Option<LambdaUrl>)
    ensures r.Some? ==> Serialize(r.value) == url
    ensures r.Some? ==> exists f :: Derivable(r.value, f)
  {
    if Parse(url).Some? then ParseSound(url); Parse(url) else None
  }

  /** A query after a non-empty path is taken into the path, so on such URLs the
      whole-input parser and the query-splitting one agree. */
  lemma {:induction false} WholeUrlKeepsQueryInPath(u: LambdaUrl, f: NameForm, query: string)
    requires Derivable(u, f)
    requires u.path != "" && '?' !in u.path
    requires forall k :: 0 <= k < |query| ==> !IsLineTerminator(query[k])
    ensures ParseWholeUrl(Serialize(u) + "?" + query) == Some(u.(path := u.path + "?" + query))
    ensures ParseWholeUrl(Serialize(u) + "?" + query) == Url.WithQuery(Serialize(u) + "?" + query)
  {
    var v := u.(path := u.path + "?" + query);
    assert IsPath(v.path) by {
      forall k | 1 <= k < |v.path| ensures !IsLineTerminator(v.path[k]) {
        if k < |u.path| {
          assert v.path[k] == u.path[k];
        } else if k > |u.path| {
          assert v.path[k] == query[k - |u.path| - 1];
        }
      }
    }
    assert Derivable(v, f);
    assert Serialize(v) == Serialize(u) + "?" + query;
    ParseSerialize(v, f);
    Url.WithQueryRoundTrip(u, f, query);
  }

  /** A path that carries a line terminator is refused by the grammar. */
  lemma LineTerminatorInPathRejected(u: LambdaUrl, f: NameForm, tail: string)
    requires Derivable(u, f) && u.path != ""
    requires |tail| > 0 && IsLineTerminator(tail[0])
    ensures Parse(Serialize(u) + tail).None?
  {
    var head := u.name + QualifierSuffix(u.qualifier);
    var p := u.path + tail;
    assert !IsPath(p) by {
      assert p[|u.path|] == tail[0];
    }
    HeadSplits(f, u.qualifier);
    ParseSplitsAtFirstSlash(head, p);
    ConcatRegroup(Scheme, u.name, QualifierSuffix(u.qualifier), u.path, tail);
  }

  // ---------------------------------------------------------------------------
  // adapters/helpers/parseLambdaUrl.js

  /** Length of the run of `[a-zA-Z0-9-_]` characters from `i` (the greedy `+`). */
  function NameRun(s: string, i: nat): (n: nat)
    requires i <= |s|
    ensures i + n <= |s|
    ensures forall j :: i <= j < i + n ==> IsNameChar(s[j])
    ensures i + n < |s| ==> !IsNameChar(s[i + n])
    decreases |s| - i
  {
    if i < |s| && IsNameChar(s[i]) then 1 + NameRun(s, i + 1) else 0
  }

  /** Length of the run of characters `.` matches from `i` (the greedy `.*`). */
  function LineRun(s: string, i: nat): (n: nat)
    requires i <= |s|
    ensures i + n <= |s|
    ensures forall j :: i <= j < i + n ==> !IsLineTerminator(s[j])
    ensures i + n < |s| ==> IsLineTerminator(s[i + n])
    decreases |s| - i
  {
    if i < |s| && !IsLineTerminator(s[i]) then 1 + LineRun(s, i + 1) else 0
  }

  /** `(/.*|$)` at position `j`: end of input gives "", a '/' gives the slash and
      the longest run of non-terminators after it. */
  function PathGroup(s: string, j: nat): Option<string>
    requires j <= |s|
  {
    if j == |s| then Some("")
    else if s[j] == '/' then Some(s[j..j + 1 + LineRun(s, j + 1)])
    else None
  }

  /** `(:(\$LATEST|[a-zA-Z0-9-_]+))?(/.*|$)` at position `j`, as the matcher
      backtracks through it: qualifier and path, or no match. */
  function QualifierAndPath(s: string, j: nat): Option<(string, string)>
    requires j <= |s|
  {
    if PathGroup(s, j).Some? then Some(("", PathGroup(s, j).value))
    else if j < |s| && s[j] == ':' then
      if StartsWith(s[j + 1..], Latest) && PathGroup(s, j + 1 + |Latest|).Some? then
        Some((Latest, PathGroup(s, j + 1 + |Latest|).value))
      else
        var m := NameRun(s, j + 1);
        if m > 0 && PathGroup(s, j + 1 + m).Some? then Some((s[j + 1..j + 1 + m], PathGroup(s, j + 1 + m).value))
        else None
    else None
  }

  /** The regular-expression parser: the name is the greedy run after the
      scheme (a shorter name would leave a name character where ':', '/' or the
      end is needed). */
  function RegexParse(url: string): Option<LambdaUrl> {
    if !StartsWith(url, Scheme) then None
    else
      var n := NameRun(url, |Scheme|);
      if n == 0 then None
      else
        match QualifierAndPath(url, |Scheme| + n)
        case Some((q, p)) => Some(LambdaUrl(url[|Scheme|..|Scheme| + n], q, p))
        case None => None
  }

  /** What an accepted URL is made of: the scheme, the name run ending at
      `j`, and the qualifier and path read from there. */
  lemma RegexParseParts(url: string) returns (j: nat)
    requires RegexParse(url).Some?
    ensures StartsWith(url, Scheme) && j == |Scheme| + NameRun(url, |Scheme|) && |Scheme| < j <= |url|
    ensures QualifierAndPath(url, j).Some?
    ensures RegexParse(url).value
      == LambdaUrl(url[|Scheme|..j], QualifierAndPath(url, j).value.0, QualifierAndPath(url, j).value.1)
  {
    j := |Scheme| + NameRun(url, |Scheme|);
  }

  lemma NameRunIs(s: string, i: nat, m: nat)
    requires i + m <= |s|
    requires forall j :: i <= j < i + m ==> IsNameChar(s[j])
    requires i + m == |s| || !IsNameChar(s[i + m])
    ensures NameRun(s, i) == m
  {
  }

  lemma LineRunIs(s: string, i: nat, m: nat)
    requires i + m <= |s|
    requires forall j :: i <= j < i + m ==> !IsLineTerminator(s[j])
    requires i + m == |s| || IsLineTerminator(s[i + m])
    ensures LineRun(s, i) == m
  {
  }

  /** A path written at position `j`, followed by nothing or by a line
      terminator, is read back whole. */
  lemma PathGroupReadsPath(s: string, j: nat, path: string, tail: string)
    requires j <= |s| && s[j..] == path + tail
    requires path == "" || IsPath(path)
    requires tail == "" || (path != "" && IsLineTerminator(tail[0]))
    ensures PathGroup(s, j) == Some(path)
  {
    if path != "" {
      assert s[j] == path[0];
      assert forall m :: j + 1 <= m < j + |path| ==> s[m] == path[m - j];
      if tail != "" {
        assert s[j + |path|] == tail[0];
      }
      LineRunIs(s, j + 1, |path| - 1);
      assert s[j..j + |path|] == path;
    }
  }

  lemma QualifierAndPathReads(s: string, j: nat, q: string, path: string, tail: string)
    requires j <= |s| && s[j..] == QualifierSuffix(q) + path + tail
    requires q == "" || IsQualifier(q)
    requires path == "" || IsPath(path)
    requires tail == "" || (path != "" && IsLineTerminator(tail[0]))
    ensures QualifierAndPath(s, j) == Some((q, path))
  {
    if q == "" {
      assert s[j..] == path + tail;
      PathGroupReadsPath(s, j, path, tail);
    } else {
      assert s[j..] == ":" + q + path + tail;
      QualifiedReads(s, j, q, path, tail);
    }
  }

  lemma QualifiedReads(s: string, j: nat, q: string, path: string, tail: string)
    requires j <= |s| && s[j..] == ":" + q + path + tail
    requires IsQualifier(q)
    requires path == "" || IsPath(path)
    requires tail == "" || (path != "" && IsLineTerminator(tail[0]))
    ensures QualifierAndPath(s, j) == Some((q, path))
  {
    var k := j + 1 + |q|;
    assert PathGroup(s, j).None? by {
      assert s[j] == (":" + q + path + tail)[0] == ':';
    }
    assert PathGroup(s, k) == Some(path) by {
      assert s[k..] == path + tail;
      PathGroupReadsPath(s, k, path, tail);
    }
    assert s[j] == ':' && s[j + 1..] == q + (path + tail) by {
      assert s[j..][1..] == q + (path + tail);
    }
    if q == Latest {
      LatestQualifierReads(s, j, path, tail);
    } else {
      assert (path + tail) == "" || (path + tail)[0] == '/';
      NameQualifierReads(s, j, q, path, tail);
    }
  }

  lemma LatestQualifierReads(s: string, j: nat, path: string, tail: string)
    requires j < |s| && s[j] == ':' && s[j + 1..] == Latest + (path + tail)
    requires PathGroup(s, j).None?
    requires PathGroup(s, j + 1 + |Latest|) == Some(path)
    ensures QualifierAndPath(s, j) == Some((Latest, path))
  {
    assert s[j + 1..][..|Latest|] == Latest;
  }

  lemma NameQualifierReads(s: string, j: nat, q: string, path: string, tail: string)
    requires j < |s| && s[j] == ':' && s[j + 1..] == q + (path + tail) && IsFunctionName(q)
    requires (path + tail) == "" || (path + tail)[0] == '/'
    requires PathGroup(s, j).None?
    requires PathGroup(s, j + 1 + |q|) == Some(path)
    ensures QualifierAndPath(s, j) == Some((q, path))
  {
    QualifierAfterColon(s, j, q, path + tail);
  }

  lemma QualifierAfterColon(s: string, j: nat, q: string, rest: string)
    requires j < |s| && s[j + 1..] == q + rest && IsFunctionName(q)
    requires rest == "" || rest[0] == '/'
    ensures !StartsWith(s[j + 1..], Latest)
    ensures NameRun(s, j + 1) == |q| && s[j + 1..j + 1 + |q|] == q
  {
    assert s[j + 1..][0] == q[0];
    if |Latest| <= |s[j + 1..]| {
      assert s[j + 1..][..|Latest|][0] == s[j + 1..][0];
    }
    var k := j + 1 + |q|;
    assert forall m :: j + 1 <= m < k ==> s[m] == q[m - j - 1];
    if k < |s| {
      assert s[k] == rest[0];
    }
    NameRunIs(s, j + 1, |q|);
  }

  /** What the expression accepts is a record the grammar derives from a
      plain function name. */
  lemma RegexParseDerivable(url: string)
    requires RegexParse(url).Some?
    ensures Derivable(RegexParse(url).value, Bare(RegexParse(url).value.name))
  {
    var j := RegexParseParts(url);
    QualifierAndPathShape(url, j);
    var u := RegexParse(url).value;
    assert IsFunctionName(u.name);
    assert NameText(Bare(u.name)) == Join([u.name], ":") == u.name;
  }

  /** The qualifier group holds `$LATEST` or a name run, and the path group a
      '/' and a run of non-terminators. */
  lemma QualifierAndPathShape(s: string, j: nat)
    requires j <= |s| && QualifierAndPath(s, j).Some?
    ensures var (q, p) := QualifierAndPath(s, j).value;
      (q == "" || IsQualifier(q)) && (p == "" || IsPath(p))
  {
    if PathGroup(s, j).Some? {
      PathGroupShape(s, j);
    } else if StartsWith(s[j + 1..], Latest) && PathGroup(s, j + 1 + |Latest|).Some? {
      PathGroupShape(s, j + 1 + |Latest|);
    } else {
      var m := NameRun(s, j + 1);
      PathGroupShape(s, j + 1 + m);
    }
  }

  lemma PathGroupShape(s: string, j: nat)
    requires j <= |s| && PathGroup(s, j).Some?
    ensures PathGroup(s, j).value == "" || IsPath(PathGroup(s, j).value)
  {
    if j < |s| {
      var p := PathGroup(s, j).value;
      assert forall k :: 1 <= k < |p| ==> p[k] == s[j + k];
    }
  }

  /** The regular expression reads a plain-name URL back, and ignores whatever
      follows a line terminator in a non-empty path. */
  lemma {:induction false} RegexParseSerialize(u: LambdaUrl, tail: string)
    requires Derivable(u, Bare(u.name))
    requires tail == "" || (u.path != "" && IsLineTerminator(tail[0]))
    ensures RegexParse(Serialize(u) + tail) == Some(u)
  {
    var s := Serialize(u) + tail;
    var j := |Scheme| + |u.name|;
    RegexReadsName(u, tail);
    QualifierAndPathReads(s, j, u.qualifier, u.path, tail);
    RegexParseOf(s, |u.name|, u.qualifier, u.path);
  }

  /** The expression's result assembled from its three groups. */
  lemma RegexParseOf(s: string, n: nat, q: string, p: string)
    requires StartsWith(s, Scheme) && 0 < n == NameRun(s, |Scheme|)
    requires QualifierAndPath(s, |Scheme| + n) == Some((q, p))
    ensures RegexParse(s) == Some(LambdaUrl(s[|Scheme|..|Scheme| + n], q, p))
  {
  }

  /** The greedy name group of the expression stops exactly after the name. */
  lemma RegexReadsName(u: LambdaUrl, tail: string)
    requires Derivable(u, Bare(u.name))
    requires tail == "" || (u.path != "" && IsLineTerminator(tail[0]))
    ensures var s := Serialize(u) + tail;
      && StartsWith(s, Scheme) && |Scheme| + |u.name| <= |s|
      && s[|Scheme|..|Scheme| + |u.name|] == u.name
      && s[|Scheme| + |u.name|..] == QualifierSuffix(u.qualifier) + u.path + tail
      && NameRun(s, |Scheme|) == |u.name|
  {
    var s := Serialize(u) + tail;
    var i := |Scheme|;
    var j := i + |u.name|;
    var qs := QualifierSuffix(u.qualifier);
    ConcatRegroup(Scheme, u.name, qs, u.path, tail);
    ThreePieces(s, Scheme, u.name, qs + u.path + tail);
    if j < |s| {
      assert s[j] == (qs + u.path + tail)[0];
      if qs != "" {
        assert s[j] == ':';
      } else if u.path != "" {
        assert s[j] == '/';
      }
    }
    NameRunIs(s, i, |u.name|);
  }

  /** The regular expression and the grammar agree on every URL whose name is a
      plain function name and which the grammar accepts. */
  lemma RegexAgreesWithGrammar(url: string)
    requires Parse(url).Some? && IsFunctionName(Parse(url).value.name)
    ensures RegexParse(url) == Parse(url)
  {
    ParseSound(url);
    var u := Parse(url).value;
    var f :| Derivable(u, f);
    assert Derivable(u, Bare(u.name));
    RegexParseSerialize(u, "");
    assert Serialize(u) + "" == url;
  }

  /** Unlike the grammar, the regular expression ignores whatever follows a line
      terminator in the path. */
  lemma RegexStopsAtLineTerminator(u: LambdaUrl, tail: string)
    requires Derivable(u, Bare(u.name)) && u.path != ""
    requires |tail| > 0 && IsLineTerminator(tail[0])
    ensures RegexParse(Serialize(u) + tail) == Some(u)
    ensures Parse(Serialize(u) + tail).None?
  {
    LineTerminatorInPathRejected(u, Bare(u.name), tail);
    RegexParseSerialize(u, tail);
  }

  /** Two ':'-separated words after the scheme leave the expression no way to
      reach '/' or the end: the second word would have to be the qualifier. */
  lemma {:induction false} TwoColonsRejected(url: string, a: string, b: string)
    requires StartsWith(url, Scheme + a + ":" + b + ":")
    requires IsFunctionName(a) && IsFunctionName(b)
    ensures RegexParse(url).None?
  {
    var i := |Scheme|;
    var j := i + |a|;
    var k := j + 1 + |b|;
    TwoWordsLayout(url, a, b);
    NameRunIs(url, i, |a|);
    NameRunIs(url, j + 1, |b|);
    assert !StartsWith(url[j + 1..], Latest) by {
      assert url[j + 1..][0] == b[0];
      if |Latest| <= |url[j + 1..]| {
        assert url[j + 1..][..|Latest|][0] == b[0];
      }
    }
    assert QualifierAndPath(url, j).None?;
  }

  /** Where the scheme, the two words and the two colons sit in the URL. */
  lemma TwoWordsLayout(url: string, a: string, b: string)
    requires StartsWith(url, Scheme + a + ":" + b + ":")
    ensures |Scheme| + |a| + |b| + 2 <= |url|
    ensures StartsWith(url, Scheme)
    ensures forall m :: |Scheme| <= m < |Scheme| + |a| ==> url[m] == a[m - |Scheme|]
    ensures url[|Scheme| + |a|] == ':'
    ensures forall m :: |Scheme| + |a| + 1 <= m < |Scheme| + |a| + 1 + |b| ==> url[m] == b[m - |Scheme| - |a| - 1]
    ensures url[|Scheme| + |a| + 1 + |b|] == ':'
  {
    var p := Scheme + a + ":" + b + ":";
    assert forall m :: 0 <= m < |p| ==> url[m] == p[m];
    assert url[..|Scheme|] == Scheme;
  }

  lemma StartsWithInside(c: string, x: string, y: string, prefix: string)
    requires StartsWith(x, prefix)
    ensures StartsWith(c + x + y, c + prefix)
  {
    var s := c + x + y;
    assert forall m :: 0 <= m < |c + prefix| ==> s[m] == (c + prefix)[m] by {
      forall m | 0 <= m < |c + prefix| ensures s[m] == (c + prefix)[m] {
        if m >= |c| {
          assert s[m] == x[m - |c|] && x[m - |c|] == prefix[m - |c|];
        }
      }
    }
    assert s[..|c + prefix|] == c + prefix;
  }

  /** ARN names are refused by the regular expression. */
  lemma RegexRejectsArns(u: LambdaUrl, f: NameForm)
    requires Derivable(u, f) && !f.Bare?
    ensures RegexParse(Serialize(u)).None?
  {
    var segs := FormSegments(f);
    ArnUrlStartsWithTwoWords(u, f);
    assert IsFunctionName(segs[0]) && IsFunctionName(segs[1]) by {
      match f
      case PartialArn(acct, fn) =>
        assert forall m :: 0 <= m < |acct| ==> IsDigit(acct[m]);
      case FullArn(region, acct, fn) =>
    }
    TwoColonsRejected(Serialize(u), segs[0], segs[1]);
  }

  lemma ArnUrlStartsWithTwoWords(u: LambdaUrl, f: NameForm)
    requires Derivable(u, f) && !f.Bare?
    ensures |FormSegments(f)| >= 3
    ensures StartsWith(Serialize(u), Scheme + FormSegments(f)[0] + ":" + FormSegments(f)[1] + ":")
  {
    var segs := FormSegments(f);
    var p := segs[0] + ":" + segs[1] + ":";
    assert StartsWith(u.name, p) by {
      JoinFirstTwo(segs);
      assert u.name == p + Join(segs[2..], ":");
      assert u.name[..|p|] == p;
    }
    StartsWithInside(Scheme, u.name, QualifierSuffix(u.qualifier) + u.path, p);
    ConcatAssoc(Scheme + u.name, QualifierSuffix(u.qualifier), u.path);
    ConcatRegroup(Scheme, segs[0], ":", segs[1], ":");
  }

  lemma JoinFirstTwo(segs: seq<string>)
    requires |segs| >= 3
    ensures Join(segs, ":") == segs[0] + ":" + segs[1] + ":" + Join(segs[2..], ":")
  {
    assert segs[1..][1..] == segs[2..];
  }
}

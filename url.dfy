/** `utils/url.ts`: the `lambda://` test and the grammar front-end that keeps a
    query string out of the grammar and puts it back on the path. */
module Url {
  import opened Wrappers
  import opened Strings
  import opened LambdaUrlGrammar

  predicate IsLambdaUrl(url: string) {
    StartsWith(url, Scheme)
  }

  /** What `parseLambdaUrl` returns: the grammar's result for the text before
      the first '?', whose path then gets '?' and everything after that first '?'
      appended. A grammar failure (an exception, or no complete parse, whose
      `parts[0]` is undefined) is None. */
  function WithQuery(url: string): Option<LambdaUrl> {
    var q := IndexOf(url, '?');
    match Parse(url[..q])
    case None => None
    case Some(u) => Some(if q < |url| then u.(path := u.path + "?" + url[q + 1..]) else u)
  }

  /** `parseLambdaUrl(url)`: split on '?', feed the first piece to the grammar,
      and when more pieces were left over, rewrite the first result's path. */
  method ParseLambdaUrl(url: string) returns (r: Option<LambdaUrl>)
    ensures r == WithQuery(url)
  {
    var urlSplitOnQuery := Split(url, '?');
    var first := urlSplitOnQuery[0];
    urlSplitOnQuery := urlSplitOnQuery[1..];
    var parts := Parse(first);
    SplitAtFirst(url, '?');
    if |urlSplitOnQuery| > 0 {
      if parts.None? {
        // `parts[0].path` of an empty result list throws, and the catch returns null
        return None;
      }
      var part := parts.value;
      part := part.(path := part.path + "?" + Join(urlSplitOnQuery, "?"));
      r := Some(part);
    } else {
      r := parts;
    }
  }

  /** A URL with no '?' is handed to the grammar unchanged. */
  lemma WithoutQueryIsGrammar(url: string)
    requires '?' !in url
    ensures WithQuery(url) == Parse(url)
  {
    IndexOfAbsent(url, '?');
    assert url[..|url|] == url;
  }

  /** Only `lambda://` URLs are parsed. */
  lemma WithQueryNeedsScheme(url: string)
    requires WithQuery(url).Some?
    ensures IsLambdaUrl(url)
  {
    var q := IndexOf(url, '?');
    ParseNeedsScheme(url[..q]);
    assert url[..q][..|Scheme|] == url[..|Scheme|];
  }

  /** The query, later '?' included, is appended verbatim to the path the
      grammar derived from the text before the first '?'. */
  lemma {:induction false} WithQueryRoundTrip(u: LambdaUrl, f: NameForm, query: string)
    requires Derivable(u, f)
    requires '?' !in u.path
    ensures WithQuery(Serialize(u) + "?" + query) == Some(u.(path := u.path + "?" + query))
  {
    var s := Serialize(u);
    QuestionMarkFree(u, f);
    IndexOfAfterPrefix(s, '?', query);
    var url := s + "?" + query;
    assert url[..|s|] == s && url[|s| + 1..] == query;
    ParseSerialize(u, f);
  }

  /** Without a query the front-end returns the grammar's round trip. */
  lemma WithQueryNoQueryRoundTrip(u: LambdaUrl, f: NameForm)
    requires Derivable(u, f)
    requires '?' !in u.path
    ensures WithQuery(Serialize(u)) == Some(u)
  {
    QuestionMarkFree(u, f);
    WithoutQueryIsGrammar(Serialize(u));
    ParseSerialize(u, f);
  }

  /** The round trip with the query, when there is one, as a suffix that is
      empty or starts with '?'. */
  lemma WithQuerySuffixRoundTrip(u: LambdaUrl, f: NameForm, qs: string)
    requires Derivable(u, f)
    requires '?' !in u.path
    requires qs == "" || qs[0] == '?'
    ensures WithQuery(Serialize(u) + qs) == Some(u.(path := u.path + qs))
  {
    if qs == "" {
      assert Serialize(u) + qs == Serialize(u);
      assert u.path + qs == u.path;
      WithQueryNoQueryRoundTrip(u, f);
    } else {
      assert qs == "?" + qs[1..];
      assert Serialize(u) + qs == Serialize(u) + "?" + qs[1..];
      assert u.path + qs == u.path + "?" + qs[1..];
      WithQueryRoundTrip(u, f, qs[1..]);
    }
  }

  lemma QuestionMarkFree(u: LambdaUrl, f: NameForm)
    requires Derivable(u, f)
    requires '?' !in u.path
    ensures '?' !in Serialize(u)
  {
    var segs := FormSegments(f);
    assert forall k :: 0 <= k < |segs| ==> '?' !in segs[k] by {
      forall k | 0 <= k < |segs| ensures '?' !in segs[k] {
        assert forall j :: 0 <= j < |segs[k]| ==> IsNameChar(segs[k][j]) || IsDigit(segs[k][j]) || segs[k] in ["function", "arn", "aws", "lambda"];
      }
    }
    JoinOmits(segs, ":", '?');
    assert '?' !in u.qualifier by {
      assert forall j :: 0 <= j < |u.qualifier| ==> u.qualifier == Latest || IsNameChar(u.qualifier[j]);
    }
  }
}

/** Request headers as an API Gateway proxy event carries them: one map with
    a single text per header, and one with the list of comma-separated
    values per header (the form `@vendia/serverless-express` handlers read). */
module ApiGateway {
  import opened Wrappers
  import opened Strings

  /** A header value as the HTTP client holds it. */
  datatype HeaderValue = Text(text: string) | Number(n: int) | Flag(b: bool) | Undefined

  /** `${value}` for a defined value. */
  function Stringify(v: HeaderValue): (s: string)
    requires !v.Undefined?
    ensures v.Text? ==> s == v.text
  {
    match v
    case Text(t) => t
    case Number(n) => IntToString(n)
    case Flag(b) => if b then "true" else "false"
  }

  /** `parts.map((v) => v.trim())` */
  function TrimAll(parts: seq<string>): (r: seq<string>)
    ensures |r| == |parts| && forall k :: 0 <= k < |r| ==> r[k] == Trim(parts[k])
  {
    seq(|parts|, k requires 0 <= k < |parts| => Trim(parts[k]))
  }

  /** The entry of `headers` for one value; None stands for `undefined`. */
  function SingleHeader(v: HeaderValue): Option<string> {
    if v.Undefined? then None else Some(Stringify(v))
  }

  /** The entry of `multiValueHeaders` for one value. */
  function MultiHeader(v: HeaderValue): Option<seq<string>> {
    match v
    case Text(t) => Some(TrimAll(Split(t, ',')))
    case Undefined => None
    case _ => Some([Stringify(v)])
  }

  /** `toProxyHeaders(headers = {})`: every entry of the input is visited
      once and written into both maps under its own key. */
  method ToProxyHeaders(headers: Option<map<string, HeaderValue>>)
      returns (single: map<string, Option<string>>, multi: map<string, Option<seq<string>>>)
    ensures single.Keys == headers.GetOr(map[]).Keys && multi.Keys == headers.GetOr(map[]).Keys
    ensures forall k :: k in headers.GetOr(map[]) ==>
      single[k] == SingleHeader(headers.GetOr(map[])[k]) && multi[k] == MultiHeader(headers.GetOr(map[])[k])
  {
    var h := headers.GetOr(map[]);
    single, multi := map[], map[];
    var remaining := h.Keys;
    while remaining != {}
      invariant remaining <= h.Keys
      invariant single.Keys == h.Keys - remaining && multi.Keys == h.Keys - remaining
      invariant forall k :: k in single ==> single[k] == SingleHeader(h[k]) && multi[k] == MultiHeader(h[k])
      decreases remaining
    {
      var key :| key in remaining;
      var value := h[key];
      if value.Text? {
        single := single[key := Some(value.text)];
        multi := multi[key := Some(TrimAll(Split(value.text, ',')))];
      } else if !value.Undefined? {
        single := single[key := Some(Stringify(value))];
        multi := multi[key := Some([Stringify(value)])];
      } else {
        single := single[key := None];
        multi := multi[key := None];
      }
      remaining := remaining - {key};
    }
  }

  // ---------------------------------------------------------------------------
  // How the two maps relate

  /** Both maps say whether a header is defined in the same way. */
  lemma DefinedInBoth(v: HeaderValue)
    ensures SingleHeader(v).Some? <==> MultiHeader(v).Some?
    ensures SingleHeader(v).Some? <==> !v.Undefined?
  {
  }

  /** A value that is not text becomes a one-element list of its single text. */
  lemma NonTextIsSingleton(v: HeaderValue)
    requires !v.Text? && !v.Undefined?
    ensures MultiHeader(v) == Some([SingleHeader(v).value])
  {
  }

  lemma InfixChars(s: string, i: nat, j: nat, c: char)
    requires i <= j <= |s| && c !in s
    ensures c !in s[i..j]
  {
    assert forall k :: 0 <= k < j - i ==> s[i..j][k] == s[i + k];
  }

  /** Every element of a multi-value list is trimmed and holds no comma. */
  lemma MultiPiecesClean(t: string, k: nat)
    requires k < |MultiHeader(Text(t)).value|
    ensures var e := MultiHeader(Text(t)).value[k]; Trim(e) == e && ',' !in e
  {
    var piece := Split(t, ',')[k];
    TrimIdempotent(piece);
    TrimIsInfix(piece);
    var i := |piece| - |TrimStart(piece)|;
    InfixChars(piece, i, i + |Trim(piece)|, ',');
  }

  predicate CleanPieces(t: string) {
    forall k :: 0 <= k < |Split(t, ',')| ==> Trim(Split(t, ',')[k]) == Split(t, ',')[k]
  }

  /** When no comma-separated piece has surrounding whitespace, joining the
      multi-value list with commas gives back the single value. */
  lemma MultiRejoins(t: string)
    requires CleanPieces(t)
    ensures Join(MultiHeader(Text(t)).value, ",") == SingleHeader(Text(t)).value
  {
    var parts := Split(t, ',');
    assert TrimAll(parts) == parts;
    JoinSplit(t, ',');
  }

  /** The list has one element more than the text has commas: no piece is
      dropped, even an empty one. */
  lemma {:induction false} SplitCount(t: string)
    ensures |Split(t, ',')| == 1 + multiset(t)[',']
    decreases |t|
  {
    var i := IndexOf(t, ',');
    if i == |t| {
      IndexOfAbsent(t, ',');
    } else {
      SplitCount(t[i + 1..]);
      assert t == t[..i] + [','] + t[i + 1..];
      assert ',' !in t[..i] by {
        forall j | 0 <= j < i ensures t[..i][j] != ',' { }
      }
      assert multiset(t[..i])[','] == 0;
    }
  }

  lemma MultiCount(t: string)
    ensures |MultiHeader(Text(t)).value| == 1 + multiset(t)[',']
  {
    SplitCount(t);
  }
}

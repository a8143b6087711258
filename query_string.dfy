/** Query-string parsing as the event builders see it: Node's
    `querystring.parse`, where a repeated key collects its values in an
    array, and the `querystringify` parser behind `url-parse`, where the
    first occurrence of a key wins. Percent-decoding and `+` are not
    modelled: keys and values are the raw text between the delimiters. */
module QueryString {
  import opened Wrappers
  import opened Strings
  import Js

  /** A parameter value: a string, or an array of strings. */
  datatype QueryValue = Single(text: string) | Multi(texts: seq<string>)

  type Pair = (string, string)

  // ---------------------------------------------------------------------------
  // The reference: the values a key is given, in order

  /** The values given for `key`, in the order they appear. */
  function ValuesOf(pairs: seq<Pair>, key: string): seq<string>
    decreases |pairs|
  {
    if |pairs| == 0 then []
    else ValuesOf(pairs[..|pairs| - 1], key)
         + (if pairs[|pairs| - 1].0 == key then [pairs[|pairs| - 1].1] else [])
  }

  /** One value stays a string; several become an array. */
  function Group(vs: seq<string>): QueryValue
    requires |vs| > 0
  {
    if |vs| == 1 then Single(vs[0]) else Multi(vs)
  }

  // ---------------------------------------------------------------------------
  // querystring.parse

  /** One `&`-separated piece: the key runs to the first `=`, the value is
      everything after it (empty when there is no `=`). */
  function SplitPair(piece: string): (p: Pair)
    ensures '=' !in p.0
    ensures p.0 == piece ==> p.1 == ""
  {
    var i := IndexOf(piece, '=');
    if i < |piece| then (piece[..i], piece[i + 1..])
    else
      IndexOfAbsent(piece, '=');
      (piece, "")
  }

  /** The pairs of a query text; an empty piece (`a=1&&b=2`, a trailing `&`)
      gives no pair, while a bare `=` gives the empty key. */
  function PairsOf(pieces: seq<string>): (r: seq<Pair>)
    ensures |r| <= |pieces|
    decreases |pieces|
  {
    if |pieces| == 0 then []
    else
      PairsOf(pieces[..|pieces| - 1])
      + (if pieces[|pieces| - 1] == "" then [] else [SplitPair(pieces[|pieces| - 1])])
  }

  function Pairs(q: string): seq<Pair> {
    PairsOf(Split(q, '&'))
  }

  /** `addKeyVal`: a new key gets a string, a second value turns it into an
      array, later values are appended. */
  function AddPair(m: map<string, QueryValue>, p: Pair): map<string, QueryValue> {
    if p.0 !in m then m[p.0 := Single(p.1)]
    else match m[p.0]
      case Single(v) => m[p.0 := Multi([v, p.1])]
      case Multi(vs) => m[p.0 := Multi(vs + [p.1])]
  }

  function Collect(pairs: seq<Pair>): map<string, QueryValue>
    decreases |pairs|
  {
    if |pairs| == 0 then map[]
    else AddPair(Collect(pairs[..|pairs| - 1]), pairs[|pairs| - 1])
  }

  /** `querystring.parse(q)` */
  function Parse(q: string): map<string, QueryValue> {
    Collect(Pairs(q))
  }

  /** Each key's entry is exactly the values it is given, grouped: a string
      for one, an array of all of them, in order, for several. */
  lemma {:induction false} CollectGroups(pairs: seq<Pair>, key: string)
    ensures key in Collect(pairs) <==> |ValuesOf(pairs, key)| > 0
    ensures key in Collect(pairs) ==> Collect(pairs)[key] == Group(ValuesOf(pairs, key))
    decreases |pairs|
  {
    if |pairs| > 0 {
      var init := pairs[..|pairs| - 1];
      CollectGroups(init, key);
      var vs := ValuesOf(init, key);
      var p := pairs[|pairs| - 1];
      if p.0 == key && key in Collect(init) {
        if |vs| == 1 {
          assert vs + [p.1] == [vs[0], p.1];
        }
      }
    }
  }

  lemma ParseGroups(q: string, key: string)
    ensures key in Parse(q) <==> |ValuesOf(Pairs(q), key)| > 0
    ensures key in Parse(q) ==> Parse(q)[key] == Group(ValuesOf(Pairs(q), key))
  {
    CollectGroups(Pairs(q), key);
  }

  /** An array value always holds at least two entries: a key given once is
      never an array. */
  lemma ParseArraysRepeat(q: string, key: string)
    requires key in Parse(q) && Parse(q)[key].Multi?
    ensures |Parse(q)[key].texts| >= 2
  {
    ParseGroups(q, key);
  }

  /** The empty query gives no parameters. */
  lemma EmptyQuery()
    ensures Parse("") == map[]
  {
    assert Split("", '&') == [""];
    assert PairsOf([""]) == PairsOf([]) + [];
  }

  /** The query text with one leading `?` dropped. */
  function DropQuestionMark(q: string): string {
    if StartsWith(q, "?") then q[1..] else q
  }

  /** `querystringWithArraySupport`: one leading `?` is dropped before parsing. */
  function ParseWithArraySupport(q: string): map<string, QueryValue> {
    Parse(DropQuestionMark(q))
  }

  /** The parse is the same with or without the leading `?`. */
  lemma ArraySupportIgnoresQuestionMark(q: string)
    requires !StartsWith(q, "?")
    ensures ParseWithArraySupport("?" + q) == ParseWithArraySupport(q)
  {
    assert ("?" + q)[1..] == q;
  }

  // ---------------------------------------------------------------------------
  // querystringify: /([^=?#&]+)=?([^&]*)/g, first key wins

  predicate KeyStop(c: char) { c == '=' || c == '?' || c == '#' }

  /** Position of the first character of `s` that is not a key stop. */
  function FirstKeyChar(s: string): (i: nat)
    ensures i <= |s|
    ensures forall j :: 0 <= j < i ==> KeyStop(s[j])
    ensures i < |s| ==> !KeyStop(s[i])
  {
    if |s| == 0 || !KeyStop(s[0]) then 0 else 1 + FirstKeyChar(s[1..])
  }

  /** Position of the first key stop in `s`. */
  function FirstKeyStop(s: string): (i: nat)
    ensures i <= |s|
    ensures forall j :: 0 <= j < i ==> !KeyStop(s[j])
    ensures i < |s| ==> KeyStop(s[i])
  {
    if |s| == 0 || KeyStop(s[0]) then 0 else 1 + FirstKeyStop(s[1..])
  }

  /** The match of the expression inside one `&`-free piece: the key is the
      first run of characters other than `=`, `?`, `#`; one `=` after it is
      skipped; the value is the rest of the piece. */
  function MatchPiece(piece: string): (r: Option<Pair>)
    ensures r.Some? ==> |r.value.0| > 0
    ensures r.Some? ==> forall j :: 0 <= j < |r.value.0| ==> !KeyStop(r.value.0[j])
  {
    var i := FirstKeyChar(piece);
    if i == |piece| then None
    else
      var j := i + FirstKeyStop(piece[i..]);
      var value := if j < |piece| && piece[j] == '=' then piece[j + 1..] else piece[j..];
      Some((piece[i..j], value))
  }

  function MatchesOf(pieces: seq<string>): seq<Pair>
    decreases |pieces|
  {
    if |pieces| == 0 then []
    else
      MatchesOf(pieces[..|pieces| - 1])
      + (match MatchPiece(pieces[|pieces| - 1]) case None => [] case Some(p) => [p])
  }

  /** The `key in result` test on the `{}` being filled: a later pair for a
      key already seen is skipped, and so is every pair whose key the object
      inherits from `Object.prototype`. */
  function CollectFirst(pairs: seq<Pair>): map<string, string>
    decreases |pairs|
  {
    if |pairs| == 0 then map[]
    else
      var m := CollectFirst(pairs[..|pairs| - 1]);
      var p := pairs[|pairs| - 1];
      if p.0 in m || p.0 in Js.ObjectPrototypeNames then m else m[p.0 := p.1]
  }

  /** `querystringify.parse(q)`; a leading `?` is a key stop and so needs no
      special case. */
  function ParseFirst(q: string): map<string, string> {
    CollectFirst(MatchesOf(Split(q, '&')))
  }

  /** Each key keeps the first value it is given; an inherited name is never
      kept. */
  lemma {:induction false} CollectFirstIsFirst(pairs: seq<Pair>, key: string)
    ensures key in CollectFirst(pairs) <==> key !in Js.ObjectPrototypeNames && |ValuesOf(pairs, key)| > 0
    ensures key in CollectFirst(pairs) ==> CollectFirst(pairs)[key] == ValuesOf(pairs, key)[0]
    decreases |pairs|
  {
    if |pairs| > 0 {
      CollectFirstIsFirst(pairs[..|pairs| - 1], key);
    }
  }

  /** The first-wins parser sees, on the same pairs, the first element of
      what the array parser collects, except for the inherited names, which
      only the array parser's prototype-free object can hold. */
  lemma FirstOfGroup(pairs: seq<Pair>, key: string)
    requires key in Collect(pairs)
    ensures key in CollectFirst(pairs) <==> key !in Js.ObjectPrototypeNames
    ensures key in CollectFirst(pairs) && Collect(pairs)[key].Single? ==>
      CollectFirst(pairs)[key] == Collect(pairs)[key].text
    ensures key in CollectFirst(pairs) && Collect(pairs)[key].Multi? ==>
      |Collect(pairs)[key].texts| > 0 && CollectFirst(pairs)[key] == Collect(pairs)[key].texts[0]
  {
    CollectGroups(pairs, key);
    CollectFirstIsFirst(pairs, key);
  }
}

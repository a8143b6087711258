/** Service and region inference from an AWS endpoint host name
    (`matchHost`), used to pick the SigV4 signing scope.

    The host is matched against
      `([^.]+)\.(?:dualstack\.)?(?:([^.]*)\.)?amazonaws\.com(\.cn)?$`
    with JavaScript's leftmost, backtracking semantics; the two captures are
    then rewritten by an ordered table of special cases.

    Both character classes of the pattern exclude `.` and every literal in it
    is a whole number of dot-separated labels, so the pattern is matched here
    on the host's labels (`host.split('.')`): a match that starts inside a
    label matches equally from that label's start, which is further left, so
    the leftmost match always starts at a label boundary and the first
    capture is a whole, non-empty label. */
module AwsHost {
  import opened Wrappers
  import opened Strings

  /** What `matchHost` returns. */
  datatype Codes = Codes(serviceCode: string, regionCode: string)

  /** The two captures of a match; the second one is optional. */
  datatype Captures = Captures(service: string, region: Option<string>)

  const DefaultRegion := "us-east-1"

  function Labels(host: string): (labels: seq<string>)
    ensures |labels| >= 1
    ensures forall k :: 0 <= k < |labels| ==> '.' !in labels[k]
  {
    Split(host, '.')
  }

  /** `amazonaws\.com(\.cn)?$`, as labels. */
  predicate IsTail(labels: seq<string>) {
    labels == ["amazonaws", "com"] || labels == ["amazonaws", "com", "cn"]
  }

  /** The pattern after the first capture's dot, its alternatives tried in the
      order a backtracking matcher tries them: `dualstack.` and a region,
      `dualstack.` alone, a region alone, neither. The outer `None` means no
      match; the inner option is the second capture. */
  function MatchRest(rest: seq<string>): Option<Option<string>> {
    if |rest| >= 2 && rest[0] == "dualstack" && IsTail(rest[2..]) then Some(Some(rest[1]))
    else if |rest| >= 1 && rest[0] == "dualstack" && IsTail(rest[1..]) then Some(None)
    else if |rest| >= 1 && IsTail(rest[1..]) then Some(Some(rest[0]))
    else if IsTail(rest) then Some(None)
    else None
  }

  /** The pattern tried from the start of label `k`: `[^.]+` needs a
      non-empty label, which it takes whole. */
  function MatchAt(labels: seq<string>, k: nat): Option<Captures>
    requires k < |labels|
  {
    if labels[k] == "" then None
    else
      match MatchRest(labels[k + 1..])
      case Some(region) => Some(Captures(labels[k], region))
      case None => None
  }

  /** The leftmost label, from `k` on, at which the pattern matches. */
  function MatchFrom(labels: seq<string>, k: nat): (m: Option<(nat, Captures)>)
    requires k <= |labels|
    ensures m.Some? ==> k <= m.value.0 < |labels| && MatchAt(labels, m.value.0) == Some(m.value.1)
    ensures forall j :: k <= j < (if m.Some? then m.value.0 else |labels|) ==> MatchAt(labels, j).None?
    decreases |labels| - k
  {
    if k == |labels| then None
    else if MatchAt(labels, k).Some? then Some((k, MatchAt(labels, k).value))
    else MatchFrom(labels, k + 1)
  }

  /** `host.match(hostRegex)`, reduced to its two captures. */
  function Match(host: string): Option<Captures> {
    match MatchFrom(Labels(host), 0)
    case Some((_, c)) => Some(c)
    case None => None
  }

  /** The ordered rewrite table, then `?? ''` and `?? 'us-east-1'`. */
  function Rewrite(service: Option<string>, region: Option<string>): Codes {
    if region == Some("es") then
      Codes("es", service.GetOr(DefaultRegion))
    else if region == Some("s3") then
      Codes("s3", DefaultRegion)
    else if service == Some("email") then
      Codes("ses", region.GetOr(DefaultRegion))
    else if service.Some? && StartsWith(service.value, "s3-") then
      Codes("s3", region.GetOr(DefaultRegion))
    else
      Codes(service.GetOr(""), region.GetOr(DefaultRegion))
  }

  /** `matchHost(host)`; `None` stands for `undefined`, which is read as `''`. */
  function MatchHost(host: Option<string>): (c: Codes)
    ensures Match(host.GetOr("")).None? ==> c == Codes("", DefaultRegion)
  {
    match Match(host.GetOr(""))
    case None => Rewrite(None, None)
    case Some(m) => Rewrite(Some(m.service), m.region)
  }

  // ---------------------------------------------------------------------------
  // Where the pattern matches

  /** How many trailing labels spell the AWS domain: 3 for
      `amazonaws.com.cn`, 2 for `amazonaws.com`, 0 for any other host. */
  function TailLength(labels: seq<string>): (n: nat)
    ensures n <= |labels|
    ensures n > 0 ==> IsTail(labels[|labels| - n..])
  {
    if |labels| >= 3 && IsTail(labels[|labels| - 3..]) then 3
    else if |labels| >= 2 && IsTail(labels[|labels| - 2..]) then 2
    else 0
  }

  /** An independent statement of what the pattern captures, read from the
      end of the host: with the labels before the domain ending in
      `x.dualstack.r`, the captures are `x` and `r`; otherwise the last two
      labels `x.r` give `x` and `r` (no region when `r` is `dualstack`);
      otherwise the one label before the domain is the service. An empty
      label where the service should be means no match. */
  function Anchored(labels: seq<string>): Option<Captures> {
    var t := TailLength(labels);
    var n := |labels| - t;
    if t == 0 then None
    else if n >= 3 && labels[n - 3] != "" && labels[n - 2] == "dualstack" then
      Some(Captures(labels[n - 3], Some(labels[n - 1])))
    else if n >= 2 && labels[n - 2] != "" then
      Some(Captures(labels[n - 2], if labels[n - 1] == "dualstack" then None else Some(labels[n - 1])))
    else if n >= 1 && labels[n - 1] != "" then
      Some(Captures(labels[n - 1], None))
    else None
  }

  /** Only the real tail reads as the domain: no other suffix of
      `body + tail` is a tail. */
  lemma TailOnlyAtEnd(labels: seq<string>, n: nat, j: nat)
    requires n <= |labels| && IsTail(labels[n..]) && j <= |labels|
    ensures IsTail(labels[j..]) <==> j == n
  {
    var t := labels[n..];
    var s := labels[j..];
    if j < n {
      assert s[|s| - 1] == t[|t| - 1];
      if |t| == 2 {
        assert |s| >= 3;
      }
    } else if j > n {
      if |s| == 2 {
        assert s[0] == t[1];
      }
    }
  }

  /** The text after the first capture's dot, when it is `body + tail`: the
      pattern accepts a body of at most two labels, and a two-label body only
      when it starts with `dualstack`. */
  lemma MatchRestOfBody(rest: seq<string>, b: nat)
    requires b <= |rest| && IsTail(rest[b..])
    ensures MatchRest(rest) ==
      if b == 0 then Some(None)
      else if b == 1 then (if rest[0] == "dualstack" then Some(None) else Some(Some(rest[0])))
      else if b == 2 && rest[0] == "dualstack" then Some(Some(rest[1]))
      else None
  {
    if |rest| >= 2 { TailOnlyAtEnd(rest, b, 2); }
    if |rest| >= 1 { TailOnlyAtEnd(rest, b, 1); }
    TailOnlyAtEnd(rest, b, 0);
  }

  /** Where the pattern is tried at label `k` of a host in the domain. */
  lemma MatchAtInDomain(labels: seq<string>, n: nat, k: nat)
    requires n <= |labels| && IsTail(labels[n..]) && k < |labels|
    ensures k >= n ==> MatchAt(labels, k).None?
    ensures k < n && labels[k] != "" && n - (k + 1) <= 1 ==> MatchAt(labels, k).Some?
    ensures k < n && n - (k + 1) == 2 && labels[k] != "" && labels[k + 1] == "dualstack" ==> MatchAt(labels, k).Some?
    ensures k < n && (n - (k + 1) > 2 || (n - (k + 1) == 2 && labels[k + 1] != "dualstack")) ==> MatchAt(labels, k).None?
  {
    var rest := labels[k + 1..];
    if k >= n {
      if |rest| >= 2 { TailOnlyAtEnd(labels, n, k + 3); assert rest[2..] == labels[k + 3..]; }
      if |rest| >= 1 { TailOnlyAtEnd(labels, n, k + 2); assert rest[1..] == labels[k + 2..]; }
      TailOnlyAtEnd(labels, n, k + 1);
    } else {
      assert rest[n - (k + 1)..] == labels[n..];
      MatchRestOfBody(rest, n - (k + 1));
    }
  }

  /** Any suffix that spells the domain is the one `TailLength` finds. */
  lemma TailLengthFinds(labels: seq<string>, j: nat)
    requires j <= |labels|
    ensures IsTail(labels[j..]) ==> TailLength(labels) == |labels| - j
  {
    if IsTail(labels[j..]) {
      var t := TailLength(labels);
      if |labels| - j == 2 && |labels| >= 3 {
        TailOnlyAtEnd(labels, j, |labels| - 3);
      }
    }
  }

  /** Outside the domain no suffix spells it. */
  lemma NoTailOutsideDomain(labels: seq<string>)
    requires TailLength(labels) == 0
    ensures forall j :: 0 <= j <= |labels| ==> !IsTail(labels[j..])
  {
    forall j | 0 <= j <= |labels| ensures !IsTail(labels[j..]) {
      TailLengthFinds(labels, j);
    }
  }

  /** A host outside the domain has no match at any label. */
  lemma MatchAtOutsideDomain(labels: seq<string>, k: nat)
    requires k < |labels| && forall j :: 0 <= j <= |labels| ==> !IsTail(labels[j..])
    ensures MatchAt(labels, k).None?
  {
    var rest := labels[k + 1..];
    if |rest| >= 2 {
      assert rest[2..] == labels[k + 3..];
    }
    if |rest| >= 1 {
      assert rest[1..] == labels[k + 2..];
    }
    assert !IsTail(labels[k + 1..]);
  }

  /** The leftmost match is found at the first label that matches. */
  lemma FirstMatchWins(labels: seq<string>, c: nat)
    requires c < |labels| && MatchAt(labels, c).Some?
    requires forall j :: 0 <= j < c ==> MatchAt(labels, j).None?
    ensures MatchFrom(labels, 0) == Some((c, MatchAt(labels, c).value))
  {
  }

  lemma NoMatchAnywhere(labels: seq<string>)
    requires forall j :: 0 <= j < |labels| ==> MatchAt(labels, j).None?
    ensures MatchFrom(labels, 0).None?
  {
  }

  /** The captures at a label whose body before the domain is one or two
      labels long. */
  lemma CapturesAt(labels: seq<string>, n: nat, k: nat)
    requires n <= |labels| && IsTail(labels[n..]) && k < n && labels[k] != ""
    ensures n - (k + 1) == 0 ==> MatchAt(labels, k) == Some(Captures(labels[k], None))
    ensures n - (k + 1) == 1 ==>
      MatchAt(labels, k) == Some(Captures(labels[k], if labels[k + 1] == "dualstack" then None else Some(labels[k + 1])))
    ensures n - (k + 1) == 2 && labels[k + 1] == "dualstack" ==> MatchAt(labels, k) == Some(Captures(labels[k], Some(labels[k + 2])))
  {
    var rest := labels[k + 1..];
    assert rest[n - (k + 1)..] == labels[n..];
    MatchRestOfBody(rest, n - (k + 1));
  }

  /** The leftmost match is the one `Anchored` describes: the pattern, though
      unanchored on the left, always captures labels counted from the end of
      the host. */
  lemma MatchIsAnchored(host: string)
    ensures Match(host) == Anchored(Labels(host))
  {
    var labels := Labels(host);
    var t := TailLength(labels);
    var n := |labels| - t;
    if t == 0 {
      NoMatchOutsideDomain(labels);
    } else if n >= 3 && labels[n - 3] != "" && labels[n - 2] == "dualstack" {
      MatchesDualstack(labels, n);
    } else if n >= 2 && labels[n - 2] != "" {
      MatchesPair(labels, n);
    } else if n >= 1 && labels[n - 1] != "" {
      MatchesSingle(labels, n);
    } else {
      NoMatchWithoutService(labels, n);
    }
  }

  lemma NoMatchOutsideDomain(labels: seq<string>)
    requires TailLength(labels) == 0
    ensures MatchFrom(labels, 0).None?
  {
    NoTailOutsideDomain(labels);
    forall j | 0 <= j < |labels| ensures MatchAt(labels, j).None? {
      MatchAtOutsideDomain(labels, j);
    }
    NoMatchAnywhere(labels);
  }

  lemma MatchesDualstack(labels: seq<string>, n: nat)
    requires 3 <= n <= |labels| && IsTail(labels[n..])
    requires labels[n - 3] != "" && labels[n - 2] == "dualstack"
    ensures MatchFrom(labels, 0) == Some((n - 3, Captures(labels[n - 3], Some(labels[n - 1]))))
  {
    forall j | 0 <= j < n - 3 ensures MatchAt(labels, j).None? {
      MatchAtInDomain(labels, n, j);
    }
    CapturesAt(labels, n, n - 3);
    FirstMatchWins(labels, n - 3);
  }

  lemma MatchesPair(labels: seq<string>, n: nat)
    requires 2 <= n <= |labels| && IsTail(labels[n..]) && labels[n - 2] != ""
    requires !(n >= 3 && labels[n - 3] != "" && labels[n - 2] == "dualstack")
    ensures MatchFrom(labels, 0) ==
      Some((n - 2, Captures(labels[n - 2], if labels[n - 1] == "dualstack" then None else Some(labels[n - 1]))))
  {
    forall j | 0 <= j < n - 2 ensures MatchAt(labels, j).None? {
      MatchAtInDomain(labels, n, j);
    }
    CapturesAt(labels, n, n - 2);
    FirstMatchWins(labels, n - 2);
  }

  lemma MatchesSingle(labels: seq<string>, n: nat)
    requires 1 <= n <= |labels| && IsTail(labels[n..]) && labels[n - 1] != ""
    requires !(n >= 2 && labels[n - 2] != "")
    ensures MatchFrom(labels, 0) == Some((n - 1, Captures(labels[n - 1], None)))
  {
    forall j | 0 <= j < n - 1 ensures MatchAt(labels, j).None? {
      SingleMissesAt(labels, n, j);
    }
    CapturesAt(labels, n, n - 1);
    FirstMatchWins(labels, n - 1);
  }

  lemma SingleMissesAt(labels: seq<string>, n: nat, j: nat)
    requires 1 <= n <= |labels| && IsTail(labels[n..]) && j < n - 1
    requires !(n >= 2 && labels[n - 2] != "")
    ensures MatchAt(labels, j).None?
  {
    if j + 2 != n {
      MatchAtInDomain(labels, n, j);
    }
  }

  lemma NoMatchWithoutService(labels: seq<string>, n: nat)
    requires n <= |labels| && IsTail(labels[n..])
    requires !(n >= 3 && labels[n - 3] != "" && labels[n - 2] == "dualstack")
    requires !(n >= 2 && labels[n - 2] != "") && !(n >= 1 && labels[n - 1] != "")
    ensures MatchFrom(labels, 0).None?
  {
    forall j | 0 <= j < |labels| ensures MatchAt(labels, j).None? {
      NoMatchAtWithoutService(labels, n, j);
    }
    NoMatchAnywhere(labels);
  }

  lemma NoMatchAtWithoutService(labels: seq<string>, n: nat, j: nat)
    requires n <= |labels| && IsTail(labels[n..]) && j < |labels|
    requires !(n >= 3 && labels[n - 3] != "" && labels[n - 2] == "dualstack")
    requires !(n >= 2 && labels[n - 2] != "") && !(n >= 1 && labels[n - 1] != "")
    ensures MatchAt(labels, j).None?
  {
    if j < n && labels[j] == "" {
    } else if j + 3 == n {
      assert labels[j + 1] != "dualstack";
      MatchAtInDomain(labels, n, j);
    } else {
      MatchAtInDomain(labels, n, j);
    }
  }

  /** A host whose labels do not end in `amazonaws.com` or
      `amazonaws.com.cn` gets the defaults: no service, `us-east-1`. */
  lemma ForeignHostDefaults(host: string)
    requires TailLength(Labels(host)) == 0
    ensures MatchHost(Some(host)) == Codes("", DefaultRegion)
  {
    MatchIsAnchored(host);
  }

  /** `undefined` and `''` both give the defaults. */
  lemma UndefinedHostDefaults()
    ensures MatchHost(None) == Codes("", DefaultRegion)
    ensures MatchHost(Some("")) == Codes("", DefaultRegion)
  {
    MatchIsAnchored("");
    assert Labels("") == [""];
  }

  // ---------------------------------------------------------------------------
  // Host names built from their parts

  /** The parts of an endpoint name the pattern is written for:
      `[prefix.]service[.dualstack][.region].amazonaws.com[.cn]`. */
  datatype HostParts = HostParts(
    prefix: seq<string>, service: string, dualstack: bool, region: Option<string>, china: bool)

  function HostLabels(p: HostParts): seq<string> {
    p.prefix + Body(p) + TailLabels(p.china)
  }

  /** The service, the marker and the region. */
  function Body(p: HostParts): seq<string> {
    [p.service] + (if p.dualstack then ["dualstack"] else []) +
    (match p.region case Some(r) => [r] case None => [])
  }

  function TailLabels(china: bool): (t: seq<string>)
    ensures IsTail(t)
  {
    if china then ["amazonaws", "com", "cn"] else ["amazonaws", "com"]
  }

  function HostName(p: HostParts): string {
    Join(HostLabels(p), ".")
  }

  /** Dot-free labels, a non-empty service, and a region that cannot be read
      as the `dualstack` marker. */
  predicate Plain(p: HostParts) {
    (forall k :: 0 <= k < |p.prefix| ==> '.' !in p.prefix[k]) &&
    p.service != [] && '.' !in p.service && p.service != "dualstack" &&
    (p.region.Some? ==> '.' !in p.region.value && p.region.value != "dualstack")
  }

  lemma HostLabelsRead(p: HostParts)
    requires Plain(p)
    ensures Labels(HostName(p)) == HostLabels(p)
  {
    var labels := HostLabels(p);
    forall k | 0 <= k < |labels| ensures '.' !in labels[k] {
      if k < |p.prefix| {
        assert labels[k] == p.prefix[k];
      }
    }
    SplitJoin(labels, '.');
  }

  /** Round trip: an endpoint name built from plain parts gives back its
      service and region, whatever labels (a bucket, an account id) come
      before the service. */
  lemma HostNameMatches(p: HostParts)
    requires Plain(p)
    requires p.dualstack || p.region.Some? || p.prefix == [] || p.prefix[|p.prefix| - 1] == ""
    ensures Match(HostName(p)) == Some(Captures(p.service, p.region))
  {
    HostLabelsRead(p);
    MatchIsAnchored(HostName(p));
    AnchoredHostLabels(p);
  }

  lemma AnchoredHostLabels(p: HostParts)
    requires Plain(p)
    requires p.dualstack || p.region.Some? || p.prefix == [] || p.prefix[|p.prefix| - 1] == ""
    ensures Anchored(HostLabels(p)) == Some(Captures(p.service, p.region))
  {
    var labels := HostLabels(p);
    var s := |p.prefix|;
    var n := s + |Body(p)|;
    HostLabelsLayout(p);
    assert labels[s] == p.service;
    if p.dualstack && p.region.Some? {
      assert labels[s + 1] == "dualstack";
      assert labels[s + 2] == p.region.value;
      ReadsDualstackRegion(labels, n);
    } else if p.dualstack {
      assert labels[s + 1] == "dualstack";
      ReadsPair(labels, n);
    } else if p.region.Some? {
      assert labels[s + 1] == p.region.value;
      ReadsPair(labels, n);
    } else {
      if s > 0 {
        assert labels[s - 1] == p.prefix[s - 1];
      }
      ReadsSingle(labels, n);
    }
  }

  lemma ReadsDualstackRegion(labels: seq<string>, n: nat)
    requires 3 <= n <= |labels| && IsTail(labels[n..])
    requires labels[n - 3] != "" && labels[n - 2] == "dualstack"
    ensures Anchored(labels) == Some(Captures(labels[n - 3], Some(labels[n - 1])))
  {
    AnchoredAt(labels, n);
  }

  lemma ReadsPair(labels: seq<string>, n: nat)
    requires 2 <= n <= |labels| && IsTail(labels[n..])
    requires labels[n - 2] != "" && labels[n - 2] != "dualstack"
    ensures Anchored(labels) == Some(Captures(labels[n - 2], if labels[n - 1] == "dualstack" then None else Some(labels[n - 1])))
  {
    AnchoredAt(labels, n);
  }

  lemma ReadsSingle(labels: seq<string>, n: nat)
    requires 1 <= n <= |labels| && IsTail(labels[n..])
    requires labels[n - 1] != "" && (n < 2 || labels[n - 2] == "")
    ensures Anchored(labels) == Some(Captures(labels[n - 1], None))
  {
    AnchoredAt(labels, n);
  }

  lemma HostLabelsLayout(p: HostParts)
    ensures HostLabels(p)[|p.prefix| + |Body(p)|..] == TailLabels(p.china)
    ensures HostLabels(p)[..|p.prefix|] == p.prefix
    ensures HostLabels(p)[|p.prefix|..|p.prefix| + |Body(p)|] == Body(p)
  {
  }

  /** `Anchored` reads the captures just before a known tail. */
  lemma AnchoredAt(labels: seq<string>, n: nat)
    requires n <= |labels| && IsTail(labels[n..])
    ensures Anchored(labels) ==
      if n >= 3 && labels[n - 3] != "" && labels[n - 2] == "dualstack" then
        Some(Captures(labels[n - 3], Some(labels[n - 1])))
      else if n >= 2 && labels[n - 2] != "" then
        Some(Captures(labels[n - 2], if labels[n - 1] == "dualstack" then None else Some(labels[n - 1])))
      else if n >= 1 && labels[n - 1] != "" then
        Some(Captures(labels[n - 1], None))
      else None
  {
    TailLengthFinds(labels, n);
  }

  /** Without the `dualstack` marker or a region label, the service label must
      be the first one: a label before it would read as the service and the
      service as the region. */
  lemma PrefixTakesOverBareService(p: HostParts)
    requires Plain(p) && !p.dualstack && p.region.None? && p.prefix != []
    requires p.prefix[|p.prefix| - 1] != "" && p.prefix[|p.prefix| - 1] != "dualstack"
    ensures Match(HostName(p)) == Some(Captures(p.prefix[|p.prefix| - 1], Some(p.service)))
  {
    var q := HostParts(p.prefix[..|p.prefix| - 1], p.prefix[|p.prefix| - 1], false, Some(p.service), p.china);
    assert HostLabels(q) == HostLabels(p);
    HostNameMatches(q);
  }

  /** The rewrite table on built host names (the es swap, the global S3
      endpoint, SES, `s3-` services): the codes follow from the captures. */
  lemma HostNameCodes(p: HostParts)
    requires Plain(p)
    requires p.dualstack || p.region.Some? || p.prefix == [] || p.prefix[|p.prefix| - 1] == ""
    ensures p.region == Some("es") ==> MatchHost(Some(HostName(p))) == Codes("es", p.service)
    ensures p.region == Some("s3") ==> MatchHost(Some(HostName(p))) == Codes("s3", DefaultRegion)
    ensures p.region != Some("es") && p.region != Some("s3") && p.service == "email" ==>
      MatchHost(Some(HostName(p))) == Codes("ses", p.region.GetOr(DefaultRegion))
    ensures p.region != Some("es") && p.region != Some("s3") && StartsWith(p.service, "s3-") ==>
      MatchHost(Some(HostName(p))) == Codes("s3", p.region.GetOr(DefaultRegion))
    ensures p.region != Some("es") && p.region != Some("s3") && p.service != "email" && !StartsWith(p.service, "s3-") ==>
      MatchHost(Some(HostName(p))) == Codes(p.service, p.region.GetOr(DefaultRegion))
  {
    HostNameMatches(p);
    if StartsWith(p.service, "s3-") {
      assert p.service[0] == 's';
    }
  }

  /** An empty region label (`svc..amazonaws.com`) is a present, empty
      capture: it is kept, not replaced by `us-east-1`. */
  lemma EmptyRegionKept(service: string, china: bool)
    requires service != [] && '.' !in service && service != "dualstack"
    requires service != "email" && !StartsWith(service, "s3-")
    ensures MatchHost(Some(HostName(HostParts([], service, false, Some(""), china)))) == Codes(service, "")
  {
    HostNameMatches(HostParts([], service, false, Some(""), china));
  }

  /** A region label spelled `dualstack` with no dual-stack marker is read as
      the marker: the region falls back to `us-east-1`. */
  lemma DualstackRegionIsSwallowed(service: string, china: bool)
    requires service != [] && '.' !in service && service != "dualstack"
    requires service != "email" && !StartsWith(service, "s3-")
    ensures MatchHost(Some(HostName(HostParts([], service, false, Some("dualstack"), china)))) == Codes(service, DefaultRegion)
  {
    var q := HostParts([], service, true, None, china);
    HostNameMatches(q);
    assert HostLabels(HostParts([], service, false, Some("dualstack"), china)) == HostLabels(q);
    RewriteWithoutRegion(service);
  }

  /** A plain service with no region capture keeps its name and gets the
      default region. */
  lemma RewriteWithoutRegion(service: string)
    requires service != "email" && !StartsWith(service, "s3-")
    ensures Rewrite(Some(service), None) == Codes(service, DefaultRegion)
  {
  }
}

/** The expected outcomes of `matchHost` listed in the library's test table
    (test/utils/aws.test.ts:5-30), each host written as its labels. */
module AwsHostTable {
  import opened Wrappers
  import opened AwsHost

  /** `search-cluster-name-aaaa00aaaa0aaa0aaaaaaa0aaa`, in three pieces. */
  const ClusterLabel := "search-cluster-" + "name-aaaa00aaaa" + "0aaa0aaaaaaa0aaa"

  lemma ClusterLabelHasNoDot()
    ensures '.' !in ClusterLabel
  {
    assert '.' !in "search-cluster-";
    assert '.' !in "name-aaaa00aaaa";
    assert '.' !in "0aaa0aaaaaaa0aaa";
  }

  /** Rows 5 and 6: `undefined` and `''`. */
  lemma EmptyRows()
    ensures MatchHost(None) == Codes("", "us-east-1")
    ensures MatchHost(Some("")) == Codes("", "us-east-1")
  {
    UndefinedHostDefaults();
  }

  /** `s3.amazonaws.com` */
  lemma Row7()
    ensures MatchHost(Some(HostName(HostParts([], "s3", false, None, false)))) == Codes("s3", "us-east-1")
  {
    var p := HostParts([], "s3", false, None, false);
    HostNameCodes(p);
  }

  /** `lifeomic.s3.amazonaws.com` */
  lemma Row8()
    ensures MatchHost(Some(HostName(HostParts([], "lifeomic", false, Some("s3"), false)))) == Codes("s3", "us-east-1")
  {
    var p := HostParts([], "lifeomic", false, Some("s3"), false);
    HostNameCodes(p);
  }

  /** `lifeomic.s3.us-east-2.amazonaws.com` */
  lemma Row9()
    ensures MatchHost(Some(HostName(HostParts(["lifeomic"], "s3", false, Some("us-east-2"), false)))) == Codes("s3", "us-east-2")
  {
    var p := HostParts(["lifeomic"], "s3", false, Some("us-east-2"), false);
    HostNameCodes(p);
  }

  /** `s3.us-east-2.amazonaws.com` */
  lemma Row10()
    ensures MatchHost(Some(HostName(HostParts([], "s3", false, Some("us-east-2"), false)))) == Codes("s3", "us-east-2")
  {
    var p := HostParts([], "s3", false, Some("us-east-2"), false);
    HostNameCodes(p);
  }

  /** `s3-fips.us-east-2.amazonaws.com` */
  lemma Row11()
    ensures MatchHost(Some(HostName(HostParts([], "s3-fips", false, Some("us-east-2"), false)))) == Codes("s3", "us-east-2")
  {
    var p := HostParts([], "s3-fips", false, Some("us-east-2"), false);
    assert p.service[..3] == "s3-";
    HostNameCodes(p);
  }

  /** `s3.dualstack.us-east-2.amazonaws.com` */
  lemma Row12()
    ensures MatchHost(Some(HostName(HostParts([], "s3", true, Some("us-east-2"), false)))) == Codes("s3", "us-east-2")
  {
    var p := HostParts([], "s3", true, Some("us-east-2"), false);
    HostNameCodes(p);
  }

  /** `s3-fips.dualstack.us-east-2.amazonaws.com` */
  lemma Row13()
    ensures MatchHost(Some(HostName(HostParts([], "s3-fips", true, Some("us-east-2"), false)))) == Codes("s3", "us-east-2")
  {
    var p := HostParts([], "s3-fips", true, Some("us-east-2"), false);
    assert p.service[..3] == "s3-";
    HostNameCodes(p);
  }

  /** `123456789012.s3-control.us-east-2.amazonaws.com` */
  lemma Row14()
    ensures MatchHost(Some(HostName(HostParts(["123456789012"], "s3-control", false, Some("us-east-2"), false)))) == Codes("s3", "us-east-2")
  {
    var p := HostParts(["123456789012"], "s3-control", false, Some("us-east-2"), false);
    assert p.service[..3] == "s3-";
    HostNameCodes(p);
  }

  /** `123456789012.s3-control-fips.us-east-2.amazonaws.com` */
  lemma Row15()
    ensures MatchHost(Some(HostName(HostParts(["123456789012"], "s3-control-fips", false, Some("us-east-2"), false)))) == Codes("s3", "us-east-2")
  {
    var p := HostParts(["123456789012"], "s3-control-fips", false, Some("us-east-2"), false);
    assert p.service[..3] == "s3-";
    HostNameCodes(p);
  }

  /** `123456789012.s3-control.dualstack.us-east-2.amazonaws.com` */
  lemma Row16()
    ensures MatchHost(Some(HostName(HostParts(["123456789012"], "s3-control", true, Some("us-east-2"), false)))) == Codes("s3", "us-east-2")
  {
    var p := HostParts(["123456789012"], "s3-control", true, Some("us-east-2"), false);
    assert p.service[..3] == "s3-";
    HostNameCodes(p);
  }

  /** `123456789012.s3-control-fips.dualstack.us-east-2.amazonaws.com` */
  lemma Row17()
    ensures MatchHost(Some(HostName(HostParts(["123456789012"], "s3-control-fips", true, Some("us-east-2"), false)))) == Codes("s3", "us-east-2")
  {
    var p := HostParts(["123456789012"], "s3-control-fips", true, Some("us-east-2"), false);
    assert p.service[..3] == "s3-";
    HostNameCodes(p);
  }

  /** `s3-fips.dualstack.us-east-1.amazonaws.com` */
  lemma Row18()
    ensures MatchHost(Some(HostName(HostParts([], "s3-fips", true, Some("us-east-1"), false)))) == Codes("s3", "us-east-1")
  {
    var p := HostParts([], "s3-fips", true, Some("us-east-1"), false);
    assert p.service[..3] == "s3-";
    HostNameCodes(p);
  }

  /** `s3-fips.dualstack.us-east-2.amazonaws.com` */
  lemma Row19()
    ensures MatchHost(Some(HostName(HostParts([], "s3-fips", true, Some("us-east-2"), false)))) == Codes("s3", "us-east-2")
  {
    var p := HostParts([], "s3-fips", true, Some("us-east-2"), false);
    assert p.service[..3] == "s3-";
    HostNameCodes(p);
  }

  /** `s3-fips.dualstack.us-west-1.amazonaws.com` */
  lemma Row20()
    ensures MatchHost(Some(HostName(HostParts([], "s3-fips", true, Some("us-west-1"), false)))) == Codes("s3", "us-west-1")
  {
    var p := HostParts([], "s3-fips", true, Some("us-west-1"), false);
    assert p.service[..3] == "s3-";
    HostNameCodes(p);
  }

  /** `s3-fips.dualstack.us-west-2.amazonaws.com` */
  lemma Row21()
    ensures MatchHost(Some(HostName(HostParts([], "s3-fips", true, Some("us-west-2"), false)))) == Codes("s3", "us-west-2")
  {
    var p := HostParts([], "s3-fips", true, Some("us-west-2"), false);
    assert p.service[..3] == "s3-";
    HostNameCodes(p);
  }

  /** `s3-fips.us-east-1.amazonaws.com` */
  lemma Row22()
    ensures MatchHost(Some(HostName(HostParts([], "s3-fips", false, Some("us-east-1"), false)))) == Codes("s3", "us-east-1")
  {
    var p := HostParts([], "s3-fips", false, Some("us-east-1"), false);
    assert p.service[..3] == "s3-";
    HostNameCodes(p);
  }

  /** `s3-fips.us-east-2.amazonaws.com` */
  lemma Row23()
    ensures MatchHost(Some(HostName(HostParts([], "s3-fips", false, Some("us-east-2"), false)))) == Codes("s3", "us-east-2")
  {
    var p := HostParts([], "s3-fips", false, Some("us-east-2"), false);
    assert p.service[..3] == "s3-";
    HostNameCodes(p);
  }

  /** `s3-fips.us-west-1.amazonaws.com` */
  lemma Row24()
    ensures MatchHost(Some(HostName(HostParts([], "s3-fips", false, Some("us-west-1"), false)))) == Codes("s3", "us-west-1")
  {
    var p := HostParts([], "s3-fips", false, Some("us-west-1"), false);
    assert p.service[..3] == "s3-";
    HostNameCodes(p);
  }

  /** `s3-fips.us-west-2.amazonaws.com` */
  lemma Row25()
    ensures MatchHost(Some(HostName(HostParts([], "s3-fips", false, Some("us-west-2"), false)))) == Codes("s3", "us-west-2")
  {
    var p := HostParts([], "s3-fips", false, Some("us-west-2"), false);
    assert p.service[..3] == "s3-";
    HostNameCodes(p);
  }

  /** `s3-fips.us-gov-east-1.amazonaws.com` */
  lemma Row26()
    ensures MatchHost(Some(HostName(HostParts([], "s3-fips", false, Some("us-gov-east-1"), false)))) == Codes("s3", "us-gov-east-1")
  {
    var p := HostParts([], "s3-fips", false, Some("us-gov-east-1"), false);
    assert p.service[..3] == "s3-";
    HostNameCodes(p);
  }

  /** `s3-fips.us-gov-west-1.amazonaws.com` */
  lemma Row27()
    ensures MatchHost(Some(HostName(HostParts([], "s3-fips", false, Some("us-gov-west-1"), false)))) == Codes("s3", "us-gov-west-1")
  {
    var p := HostParts([], "s3-fips", false, Some("us-gov-west-1"), false);
    assert p.service[..3] == "s3-";
    HostNameCodes(p);
  }

  /** `s3-fips.ca-central-1.amazonaws.com` */
  lemma Row28()
    ensures MatchHost(Some(HostName(HostParts([], "s3-fips", false, Some("ca-central-1"), false)))) == Codes("s3", "ca-central-1")
  {
    var p := HostParts([], "s3-fips", false, Some("ca-central-1"), false);
    assert p.service[..3] == "s3-";
    HostNameCodes(p);
  }

  /** `search-cluster-name-aaaa00aaaa0aaa0aaaaaaa0aaa.us-east-2.es.amazonaws.com` */
  lemma Row29()
    ensures MatchHost(Some(HostName(HostParts([ClusterLabel], "us-east-2", false, Some("es"), false)))) == Codes("es", "us-east-2")
  {
    var p := HostParts([ClusterLabel], "us-east-2", false, Some("es"), false);
    ClusterLabelHasNoDot();
    HostNameCodes(p);
  }

  /** `email.us-east-2.amazonaws.com` */
  lemma Row30()
    ensures MatchHost(Some(HostName(HostParts([], "email", false, Some("us-east-2"), false)))) == Codes("ses", "us-east-2")
  {
    var p := HostParts([], "email", false, Some("us-east-2"), false);
    HostNameCodes(p);
  }
}

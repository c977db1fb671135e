/**
 * The provider update URL of `Client.getSetIpAddressUrl`: a fixed endpoint
 * followed by four query parameters whose values are inserted verbatim,
 * without percent-encoding.
 */
module UpdateUrl {
  import opened Wrappers
  import opened Config

  const UpdateEndpoint: string := "https://dynamicdns.park-your-domain.com/update?host="
  const DomainParam: string := "&domain="
  const PasswordParam: string := "&password="
  const IpParam: string := "&ip="

  /** The number of characters the URL adds to the four values. */
  const LiteralLength: nat := |UpdateEndpoint| + |DomainParam| + |PasswordParam| + |IpParam|

  /** The four values a URL carries, in the order they appear in it. */
  datatype UrlFields = UrlFields(host: string, domain: string, password: string, ip: string)

  /** The update URL for the given values. */
  function SetIpAddressUrl(host: string, domain: string, password: string, ip: string): string {
    UpdateEndpoint + host + DomainParam + domain + PasswordParam + password + IpParam + ip
  }

  /**
   * Every update URL starts with the endpoint and ends with the IP, and is
   * as long as the literals and the four values together.
   */
  lemma UrlShape(host: string, domain: string, password: string, ip: string)
    ensures var url := SetIpAddressUrl(host, domain, password, ip);
      && |url| == LiteralLength + |host| + |domain| + |password| + |ip|
      && UpdateEndpoint <= url
      && url[|url| - |ip|..] == ip
  {
    var url := SetIpAddressUrl(host, domain, password, ip);
    var rest := host + DomainParam + domain + PasswordParam + password + IpParam;
    assert url == UpdateEndpoint + rest + ip;
    SliceOfPrefix(UpdateEndpoint, url, 0, |UpdateEndpoint|);
  }

  /** What `StringBuilder.append(String)` appends: a null string is spelt "null". */
  function AppendedText(s: Option<string>): string {
    match s
    case Some(t) => t
    case None => "null"
  }

  /** The update URL for a configuration whose getters return `s`. */
  function SettingsUrl(s: Settings, ip: string): string {
    SetIpAddressUrl(AppendedText(s.host), AppendedText(s.domain), AppendedText(s.password), ip)
  }

  /**
   * `getSetIpAddressUrl`: appends the endpoint, the configuration's three
   * values and the IP to an empty builder, reading the values through the
   * getters of the configuration it is given.
   */
  method BuildSetIpAddressUrl(config: NamecheapConfig, ip: string) returns (url: string)
    ensures url == SettingsUrl(config.Snapshot(), ip)
  {
    var builder: string := [];
    builder := builder + UpdateEndpoint;
    assert builder == UpdateEndpoint;
    builder := builder + AppendedText(config.GetHost());
    builder := builder + DomainParam;
    builder := builder + AppendedText(config.GetDomain());
    builder := builder + PasswordParam;
    builder := builder + AppendedText(config.GetPassword());
    builder := builder + IpParam;
    builder := builder + ip;
    url := builder;
  }

  /** The value of each parameter sits in the URL at the position fixed by the lengths of the values before it. */
  lemma {:induction false} FieldsAtTheirPositions(host: string, domain: string, password: string, ip: string)
    ensures var url := SetIpAddressUrl(host, domain, password, ip);
      var h := |UpdateEndpoint|;
      var d := h + |host| + |DomainParam|;
      var p := d + |domain| + |PasswordParam|;
      var i := p + |password| + |IpParam|;
      && url[h..h + |host|] == host
      && url[h + |host|..d] == DomainParam
      && url[d..d + |domain|] == domain
      && url[d + |domain|..p] == PasswordParam
      && url[p..p + |password|] == password
      && url[p + |password|..i] == IpParam
      && url[i..] == ip
  {
    PiecesAt(UpdateEndpoint, host, DomainParam, domain, PasswordParam, password, IpParam, ip);
  }

  /** Where each of eight concatenated pieces lies in the whole. */
  lemma PiecesAt(s0: string, s1: string, s2: string, s3: string, s4: string, s5: string, s6: string, s7: string)
    ensures var w := s0 + s1 + s2 + s3 + s4 + s5 + s6 + s7;
      var n1 := |s0|;
      var n2 := n1 + |s1|;
      var n3 := n2 + |s2|;
      var n4 := n3 + |s3|;
      var n5 := n4 + |s4|;
      var n6 := n5 + |s5|;
      var n7 := n6 + |s6|;
      && w[n1..n2] == s1 && w[n2..n3] == s2 && w[n3..n4] == s3 && w[n4..n5] == s4
      && w[n5..n6] == s5 && w[n6..n7] == s6 && w[n7..] == s7
  {
    var w := s0 + s1 + s2 + s3 + s4 + s5 + s6 + s7;
    SliceOfPrefix(s0 + s1, w, |s0|, |s0| + |s1|);
    SliceOfPrefix(s0 + s1 + s2, w, |s0 + s1|, |s0 + s1 + s2|);
    SliceOfPrefix(s0 + s1 + s2 + s3, w, |s0 + s1 + s2|, |s0 + s1 + s2 + s3|);
    SliceOfPrefix(s0 + s1 + s2 + s3 + s4, w, |s0 + s1 + s2 + s3|, |s0 + s1 + s2 + s3 + s4|);
    SliceOfPrefix(s0 + s1 + s2 + s3 + s4 + s5, w, |s0 + s1 + s2 + s3 + s4|, |s0 + s1 + s2 + s3 + s4 + s5|);
    SliceOfPrefix(s0 + s1 + s2 + s3 + s4 + s5 + s6, w, |s0 + s1 + s2 + s3 + s4 + s5|, |s0 + s1 + s2 + s3 + s4 + s5 + s6|);
  }

  /** A slice that lies inside a prefix of a sequence is the same slice of the prefix. */
  lemma SliceOfPrefix(pre: string, s: string, lo: nat, hi: nat)
    requires pre <= s && lo <= hi <= |pre|
    ensures s[lo..hi] == pre[lo..hi]
  {
    assert s[..|pre|] == pre;
  }

  /** The URL's left-to-right appends, grouped from the right as a parser reads them. */
  lemma Regroup(s0: string, s1: string, s2: string, s3: string, s4: string, s5: string, s6: string, s7: string)
    ensures s0 + s1 + s2 + s3 + s4 + s5 + s6 + s7 == s0 + (s1 + s2 + (s3 + s4 + (s5 + s6 + s7)))
  {
  }

  lemma SplitAfterPrefix(pre: string, rest: string)
    ensures pre <= pre + rest && (pre + rest)[|pre|..] == rest
  {
  }

  predicate NoAmpersand(s: string) {
    forall k :: 0 <= k < |s| ==> s[k] != '&'
  }

  /** The index of the first '&' in `s`, or `|s|` when there is none. */
  function FirstAmpersand(s: string): (i: nat)
    ensures i <= |s|
    ensures NoAmpersand(s[..i])
    ensures i < |s| ==> s[i] == '&'
  {
    if s == [] then 0
    else if s[0] == '&' then 0
    else
      var j := FirstAmpersand(s[1..]);
      assert s[..j + 1] == [s[0]] + s[1..][..j];
      j + 1
  }

  /**
   * Splits `s` at its first '&', which must begin `key`: the text before
   * it and the text after the key.
   */
  function SplitAtParam(s: string, key: string): Option<(string, string)> {
    var i := FirstAmpersand(s);
    if i < |s| && key <= s[i..] then Some((s[..i], s[i + |key|..])) else None
  }

  /**
   * How a reader of the URL recovers the four values: each value before
   * the IP runs up to the next '&', and the IP is the rest of the URL.
   */
  function ParseSetIpAddressUrl(url: string): Option<UrlFields> {
    if !(UpdateEndpoint <= url) then None
    else
      match SplitAtParam(url[|UpdateEndpoint|..], DomainParam)
      case None => None
      case Some((host, afterHost)) =>
        match SplitAtParam(afterHost, PasswordParam)
        case None => None
        case Some((domain, afterDomain)) =>
          match SplitAtParam(afterDomain, IpParam)
          case None => None
          case Some((password, ip)) => Some(UrlFields(host, domain, password, ip))
  }

  /** A value without '&' followed by a parameter key is split off exactly. */
  lemma {:induction false} SplitValue(value: string, key: string, rest: string)
    requires NoAmpersand(value) && |key| > 0 && key[0] == '&'
    ensures SplitAtParam(value + key + rest, key) == Some((value, rest))
  {
    var s := value + key + rest;
    FirstAmpersandOf(value, key + rest);
    assert s == value + (key + rest);
    assert s[|value|..] == key + rest;
    assert s[..|value|] == value;
    assert s[|value| + |key|..] == rest;
  }

  lemma {:induction false} FirstAmpersandOf(value: string, rest: string)
    requires NoAmpersand(value) && |rest| > 0 && rest[0] == '&'
    ensures FirstAmpersand(value + rest) == |value|
    decreases |value|
  {
    if value != [] {
      assert (value + rest)[1..] == value[1..] + rest;
      FirstAmpersandOf(value[1..], rest);
    }
  }

  /**
   * Round trip: when host, domain and password contain no '&', the four
   * values are read back from the URL unchanged; the IP may hold anything.
   */
  lemma {:induction false} ParseBuiltUrl(host: string, domain: string, password: string, ip: string)
    requires NoAmpersand(host) && NoAmpersand(domain) && NoAmpersand(password)
    ensures ParseSetIpAddressUrl(SetIpAddressUrl(host, domain, password, ip)) == Some(UrlFields(host, domain, password, ip))
  {
    var url := SetIpAddressUrl(host, domain, password, ip);
    var afterPassword := password + IpParam + ip;
    var afterDomain := domain + PasswordParam + afterPassword;
    var query := host + DomainParam + afterDomain;
    Regroup(UpdateEndpoint, host, DomainParam, domain, PasswordParam, password, IpParam, ip);
    SplitAfterPrefix(UpdateEndpoint, query);
    SplitValue(host, DomainParam, afterDomain);
    SplitValue(domain, PasswordParam, afterPassword);
    SplitValue(password, IpParam, ip);
  }

  /**
   * Because nothing is encoded, an '&domain=' inside the host makes the URL
   * the same as that of a different configuration.
   */
  lemma {:induction false} UnencodedValuesCollide(host: string, extra: string, domain: string, password: string, ip: string)
    ensures SetIpAddressUrl(host + DomainParam + extra, domain, password, ip)
         == SetIpAddressUrl(host, extra + DomainParam + domain, password, ip)
  {
    var tail := PasswordParam + password + IpParam + ip;
    calc {
      SetIpAddressUrl(host + DomainParam + extra, domain, password, ip);
      UpdateEndpoint + (host + DomainParam + extra) + DomainParam + domain + tail;
      UpdateEndpoint + host + DomainParam + (extra + DomainParam + domain) + tail;
      SetIpAddressUrl(host, extra + DomainParam + domain, password, ip);
    }
  }
}

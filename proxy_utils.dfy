/** `src/lib/proxy-utils.ts`: building URLs that route a resource through
    this system's own relay endpoint. The endpoint path comes from the
    environment and the encoder is `encodeURIComponent`; both are
    parameters here. */
module ProxyUtils {
  import opened Wrappers
  import opened Text

  const FallbackProxyPath: string := "/api/proxy"

  /** `PROXY_PARAM`: the marker that an URL already carries a nested target. */
  const ProxyParam: string := "url="

  datatype ProxyKind = Manifest | Segment

  function KindName(kind: ProxyKind): string {
    match kind
    case Manifest => "manifest"
    case Segment => "segment"
  }

  /** `value?.trim()` read as a condition of `||`: missing and blank both
      count as absent. */
  function Setting(value: Option<string>): string {
    match value
    case None => ""
    case Some(v) => Trim(v)
  }

  /** `DEFAULT_PROXY_PATH`: the public setting, else the server setting, each
      trimmed, else "/api/proxy". */
  function ProxyPath(publicPath: Option<string>, serverPath: Option<string>): (p: string)
    ensures p != "" && Trim(p) == p
    ensures Setting(publicPath) != "" ==> p == Setting(publicPath)
    ensures Setting(publicPath) == "" && Setting(serverPath) != "" ==> p == Setting(serverPath)
    ensures Setting(publicPath) == "" && Setting(serverPath) == "" ==> p == FallbackProxyPath
  {
    var first := Setting(publicPath);
    var second := Setting(serverPath);
    if first != "" then
      assert Trim(first) == first by {
        if publicPath.Some? { TrimIdempotent(publicPath.value); }
      }
      first
    else if second != "" then
      assert Trim(second) == second by {
        if serverPath.Some? { TrimIdempotent(serverPath.value); }
      }
      second
    else
      assert Trim(FallbackProxyPath) == FallbackProxyPath by { TrimUnchanged(FallbackProxyPath); }
      FallbackProxyPath
  }

  /** `isAlreadyProxied`: empty, or mentions both the proxy path and "url=". */
  predicate IsAlreadyProxied(proxyPath: string, url: string) {
    url == "" || (Contains(url, proxyPath) && Contains(url, ProxyParam))
  }

  /** `buildProxyUrl`: the separator is "&" when the proxy path already has
      a query, "?" otherwise. */
  function BuildProxyUrl(proxyPath: string, encode: string -> string, target: string,
                         kind: ProxyKind := Segment): (r: string)
    ensures IsAlreadyProxied(proxyPath, target) ==> r == target
    ensures !IsAlreadyProxied(proxyPath, target) ==>
              StartsWith(r, proxyPath) && EndsWith(r, "&url=" + encode(target))
              && |r| > |proxyPath| && r[|proxyPath|] == (if '?' in proxyPath then '&' else '?')
  {
    if target == "" || IsAlreadyProxied(proxyPath, target) then target
    else
      var separator := if '?' in proxyPath then "&" else "?";
      var r := proxyPath + separator + "type=" + KindName(kind) + "&url=" + encode(target);
      assert r[..|proxyPath|] == proxyPath;
      assert r[|r| - |"&url=" + encode(target)|..] == "&url=" + encode(target);
      r
  }

  /** A fresh proxy URL is the proxy path, the query up to "&", the
      "url=" marker and the encoded target. */
  lemma ProxyUrlShape(proxyPath: string, encode: string -> string, target: string, kind: ProxyKind)
    requires !IsAlreadyProxied(proxyPath, target)
    ensures BuildProxyUrl(proxyPath, encode, target, kind)
            == proxyPath + ((if '?' in proxyPath then "&" else "?") + "type=" + KindName(kind) + "&")
               + ProxyParam + encode(target)
  {
  }

  /** A string made of the proxy path, anything, the "url=" marker and
      anything mentions both. */
  lemma {:induction false} ProxiedMarkers(proxyPath: string, middle: string, tail: string)
    ensures var s := proxyPath + middle + ProxyParam + tail;
            Contains(s, proxyPath) && Contains(s, ProxyParam)
  {
    var s := proxyPath + middle + ProxyParam + tail;
    ContainsInfix([], proxyPath, middle + ProxyParam + tail);
    assert [] + proxyPath + (middle + ProxyParam + tail) == s;
    ContainsInfix(proxyPath + middle, ProxyParam, tail);
  }

  /** A proxied URL is recognised as proxied, so proxying is idempotent
      whatever kind either call asks for. */
  lemma {:induction false} BuildProxyUrlIdempotent(proxyPath: string, encode: string -> string,
                                                   target: string, kind: ProxyKind, again: ProxyKind)
    ensures IsAlreadyProxied(proxyPath, BuildProxyUrl(proxyPath, encode, target, kind))
    ensures BuildProxyUrl(proxyPath, encode, BuildProxyUrl(proxyPath, encode, target, kind), again)
            == BuildProxyUrl(proxyPath, encode, target, kind)
  {
    if !IsAlreadyProxied(proxyPath, target) {
      var middle := (if '?' in proxyPath then "&" else "?") + "type=" + KindName(kind) + "&";
      ProxyUrlShape(proxyPath, encode, target, kind);
      ProxiedMarkers(proxyPath, middle, encode(target));
    }
  }

  /** `wrapEpisodesWithProxy`: every episode URL proxied as a manifest, in
      order (an empty list is returned as it is). */
  function WrapEpisodesWithProxy(proxyPath: string, encode: string -> string,
                                 episodes: seq<string>): (r: seq<string>)
    ensures |r| == |episodes|
    ensures forall i :: 0 <= i < |episodes| ==>
              r[i] == BuildProxyUrl(proxyPath, encode, episodes[i], Manifest)
  {
    if |episodes| == 0 then episodes
    else seq(|episodes|, i requires 0 <= i < |episodes| =>
               BuildProxyUrl(proxyPath, encode, episodes[i], Manifest))
  }

  /** Wrapping an already wrapped list changes nothing. */
  lemma {:induction false} WrapEpisodesIdempotent(proxyPath: string, encode: string -> string,
                                                  episodes: seq<string>)
    ensures WrapEpisodesWithProxy(proxyPath, encode, WrapEpisodesWithProxy(proxyPath, encode, episodes))
            == WrapEpisodesWithProxy(proxyPath, encode, episodes)
  {
    var once := WrapEpisodesWithProxy(proxyPath, encode, episodes);
    var twice := WrapEpisodesWithProxy(proxyPath, encode, once);
    forall i | 0 <= i < |episodes| ensures twice[i] == once[i] {
      BuildProxyUrlIdempotent(proxyPath, encode, episodes[i], Manifest, Manifest);
    }
  }
}

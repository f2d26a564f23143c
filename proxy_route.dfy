/** `src/app/api/proxy/route.ts`: the relay endpoint. It validates the
    target, fetches it, and either rewrites a playlist so that every URI in
    it points back at the relay, or passes a segment through with a few of
    its headers. */
module ProxyRoute {
  import opened Wrappers
  import opened Text
  import opened Web
  import opened ProxyUtils

  const KeyTag: string := "#EXT-X-KEY"
  const PlaylistExtension: string := ".m3u8"
  const UriOpen: string := "URI=\""

  /** `resolveUrl`: the target resolved against the playlist's own URL, or
      the raw text when the URL parser throws. */
  function ResolveUrl(raw: string, base: string, api: UrlApi): (r: string)
    ensures api.parseRelative(raw, base).None? ==> r == raw
    ensures api.parseRelative(raw, base).Some? ==> r == api.parseRelative(raw, base).value.href
  {
    match api.parseRelative(raw, base)
    case Some(u) => u.href
    case None => raw
  }

  /** `URI="([^"]+)"` tried at position `start` of `line`: on a match, the
      index of the closing quote. The value between the quotes is non-empty
      and holds no quote. */
  function UriMatchAt(line: string, start: nat): (r: Option<nat>)
    ensures r.Some? <==> start + |UriOpen| < |line| && line[start..start + |UriOpen|] == UriOpen
                         && line[start + |UriOpen|] != '"'
                         && (exists q :: start + |UriOpen| < q < |line| && line[q] == '"')
    ensures r.Some? ==> start + |UriOpen| < r.value < |line| && line[r.value] == '"'
                        && '"' !in line[start + |UriOpen|..r.value]
  {
    if start + |UriOpen| <= |line| && line[start..start + |UriOpen|] == UriOpen then
      var rest := line[start + |UriOpen|..];
      match IndexOf(rest, '"')
      case Some(q) =>
        if q > 0 then
          assert line[start + |UriOpen|..start + |UriOpen| + q] == rest[..q];
          Some(start + |UriOpen| + q)
        else None
      case None =>
        assert forall q :: start + |UriOpen| < q < |line| ==> line[q] == rest[q - start - |UriOpen|];
        None
    else None
  }

  /** The leftmost match of `URI="([^"]+)"` at or after `from`, as
      `String.prototype.replace` finds it: its start and the index of its
      closing quote. */
  function FirstUriMatch(line: string, from: nat): (r: Option<(nat, nat)>)
    ensures r.Some? ==> from <= r.value.0 && UriMatchAt(line, r.value.0) == Some(r.value.1)
    ensures r.Some? ==> forall p :: from <= p < r.value.0 ==> UriMatchAt(line, p).None?
    ensures r.None? ==> forall p :: from <= p ==> UriMatchAt(line, p).None?
    decreases |line| - from
  {
    if from > |line| then None
    else match UriMatchAt(line, from)
      case Some(close) => Some((from, close))
      case None => FirstUriMatch(line, from + 1)
  }

  /** The `#EXT-X-KEY` case: the value of the first `URI="…"` attribute is
      resolved and proxied as a segment; everything else on the line stays. */
  function RewriteKeyLine(line: string, upstream: string, proxyPath: string, api: UrlApi): string {
    match FirstUriMatch(line, 0)
    case None => line
    case Some((start, close)) =>
      var uri := line[start + |UriOpen|..close];
      var proxied := BuildProxyUrl(proxyPath, api.encode, ResolveUrl(uri, upstream, api), Segment);
      line[..start] + UriOpen + proxied + "\"" + line[close + 1..]
  }

  /** A key line keeps everything before its first `URI="…"` attribute and
      everything after it; only the attribute's value changes, into a
      proxied URL. A key line without such an attribute is kept whole. */
  lemma {:induction false} RewriteKeyLineKeepsRest(line: string, upstream: string, proxyPath: string, api: UrlApi)
    ensures FirstUriMatch(line, 0).None? ==> RewriteKeyLine(line, upstream, proxyPath, api) == line
    ensures FirstUriMatch(line, 0).Some? ==>
              var (start, close) := FirstUriMatch(line, 0).value;
              var proxied := BuildProxyUrl(proxyPath, api.encode,
                               ResolveUrl(line[start + |UriOpen|..close], upstream, api), Segment);
              && IsAlreadyProxied(proxyPath, proxied)
              && RewriteKeyLine(line, upstream, proxyPath, api)
                 == line[..start] + UriOpen + proxied + "\"" + line[close + 1..]
  {
    if FirstUriMatch(line, 0).Some? {
      var (start, close) := FirstUriMatch(line, 0).value;
      var resolved := ResolveUrl(line[start + |UriOpen|..close], upstream, api);
      BuildProxyUrlIdempotent(proxyPath, api.encode, resolved, Segment, Segment);
    }
  }

  /** A URI line's rewrite: its text resolved against the playlist address
      and relayed, as a playlist when the resolved URL ends in ".m3u8". */
  function RelayUri(uri: string, upstream: string, proxyPath: string, api: UrlApi): string {
    var resolved := ResolveUrl(uri, upstream, api);
    BuildProxyUrl(proxyPath, api.encode, resolved, if EndsWith(resolved, PlaylistExtension) then Manifest else Segment)
  }

  /** The callback of `rewriteManifest`'s `map`. */
  function RewriteLine(line: string, upstream: string, proxyPath: string, api: UrlApi): string {
    var trimmed := Trim(line);
    if trimmed == "" then line
    else if StartsWith(trimmed, KeyTag) then RewriteKeyLine(line, upstream, proxyPath, api)
    else if StartsWith(trimmed, "#") then line
    else RelayUri(trimmed, upstream, proxyPath, api)
  }

  /** Blank lines and tags other than `#EXT-X-KEY` are kept as they are; a
      key line goes to `RewriteKeyLine`. */
  lemma RewriteLineKeepsTags(line: string, upstream: string, proxyPath: string, api: UrlApi)
    ensures Trim(line) == "" ==> RewriteLine(line, upstream, proxyPath, api) == line
    ensures StartsWith(Trim(line), "#") && !StartsWith(Trim(line), KeyTag) ==>
              RewriteLine(line, upstream, proxyPath, api) == line
    ensures StartsWith(Trim(line), KeyTag) ==>
              RewriteLine(line, upstream, proxyPath, api) == RewriteKeyLine(line, upstream, proxyPath, api)
  {
  }

  /** A URI line becomes the proxied form of its resolved URI, marked a
      manifest exactly when the resolved URI ends in ".m3u8". */
  lemma {:induction false} RewriteUriLine(line: string, upstream: string, proxyPath: string, api: UrlApi)
    requires Trim(line) != "" && !StartsWith(Trim(line), "#")
    ensures var resolved := ResolveUrl(Trim(line), upstream, api);
            var kind := if EndsWith(resolved, PlaylistExtension) then Manifest else Segment;
            var r := RewriteLine(line, upstream, proxyPath, api);
            && r == BuildProxyUrl(proxyPath, api.encode, resolved, kind)
            && IsAlreadyProxied(proxyPath, r)
  {
    var resolved := ResolveUrl(Trim(line), upstream, api);
    var kind := if EndsWith(resolved, PlaylistExtension) then Manifest else Segment;
    ContentLineRelayed(line, upstream, proxyPath, api);
    BuildProxyUrlIdempotent(proxyPath, api.encode, resolved, kind, kind);
  }

  /** The branch `RewriteLine` takes for a URI line. */
  lemma ContentLineRelayed(line: string, upstream: string, proxyPath: string, api: UrlApi)
    requires Trim(line) != "" && !StartsWith(Trim(line), "#")
    ensures RewriteLine(line, upstream, proxyPath, api) == RelayUri(Trim(line), upstream, proxyPath, api)
  {
    var trimmed := Trim(line);
    assert !StartsWith(trimmed, KeyTag) by {
      assert trimmed[0] != '#' && KeyTag[0] == '#';
    }
  }

  /** A URI line that resolves to a relayed URL is rewritten to that URL: a
      second pass keeps an already rewritten line exactly when resolving it
      against the playlist address gives it back unchanged. */
  lemma RewriteRelayedLine(line: string, upstream: string, proxyPath: string, api: UrlApi)
    requires Trim(line) != "" && !StartsWith(Trim(line), "#")
    requires IsAlreadyProxied(proxyPath, ResolveUrl(Trim(line), upstream, api))
    ensures RewriteLine(line, upstream, proxyPath, api) == ResolveUrl(Trim(line), upstream, api)
  {
    RewriteUriLine(line, upstream, proxyPath, api);
  }

  function RewriteLines(lines: seq<string>, upstream: string, proxyPath: string, api: UrlApi): (r: seq<string>)
    ensures |r| == |lines|
    ensures forall k :: 0 <= k < |lines| ==> r[k] == RewriteLine(lines[k], upstream, proxyPath, api)
  {
    seq(|lines|, k requires 0 <= k < |lines| => RewriteLine(lines[k], upstream, proxyPath, api))
  }

  /** `rewriteManifest`: split on `\r?\n`, rewrite line by line, join with
      "\n". */
  function RewriteManifest(content: string, upstream: Url, proxyPath: string, api: UrlApi): string {
    Join(RewriteLines(SplitLines(content), upstream.href, proxyPath, api), "\n")
  }

  /** The services never produce a line feed (true of the WHATWG serializer
      and of `encodeURIComponent`). */
  ghost predicate ServicesKeepLines(api: UrlApi) {
    && (forall s :: '\n' !in api.encode(s))
    && (forall raw, base :: api.parseRelative(raw, base).Some? ==> '\n' !in api.parseRelative(raw, base).value.href)
  }

  /** Nothing the rewrite inserts holds a line feed. */
  ghost predicate NoLineFeeds(proxyPath: string, api: UrlApi) {
    '\n' !in proxyPath && ServicesKeepLines(api)
  }

  lemma {:induction false} RewriteLineHasNoLineFeed(line: string, upstream: string, proxyPath: string, api: UrlApi)
    requires NoLineFeeds(proxyPath, api)
    requires '\n' !in line
    ensures '\n' !in RewriteLine(line, upstream, proxyPath, api)
  {
    var trimmed := Trim(line);
    if StartsWith(trimmed, KeyTag) {
      KeyLineHasNoLineFeed(line, upstream, proxyPath, api);
    } else if trimmed != "" && !StartsWith(trimmed, "#") {
      assert '\n' !in trimmed by { TrimInfix(line); }
      var resolved := ResolveUrl(trimmed, upstream, api);
      var kind := if EndsWith(resolved, PlaylistExtension) then Manifest else Segment;
      RewriteUriLine(line, upstream, proxyPath, api);
      ProxiedHasNoLineFeed(proxyPath, api, resolved, kind);
    }
  }

  lemma {:induction false} KeyLineHasNoLineFeed(line: string, upstream: string, proxyPath: string, api: UrlApi)
    requires NoLineFeeds(proxyPath, api)
    requires '\n' !in line
    ensures '\n' !in RewriteKeyLine(line, upstream, proxyPath, api)
  {
    RewriteKeyLineKeepsRest(line, upstream, proxyPath, api);
    if FirstUriMatch(line, 0).Some? {
      var (start, close) := FirstUriMatch(line, 0).value;
      var uri := line[start + |UriOpen|..close];
      SliceKeepsOut(line, start + |UriOpen|, close, '\n');
      SliceKeepsOut(line, 0, start, '\n');
      SliceKeepsOut(line, close + 1, |line|, '\n');
      assert line[..start] == line[0..start] && line[close + 1..] == line[close + 1..|line|];
      ResolvedHasNoLineFeed(uri, upstream, api);
      ProxiedHasNoLineFeed(proxyPath, api, ResolveUrl(uri, upstream, api), Segment);
      assert '\n' !in UriOpen + "\"";
    }
  }

  lemma SliceKeepsOut(s: string, i: nat, j: nat, c: char)
    requires i <= j <= |s| && c !in s
    ensures c !in s[i..j]
  {
  }

  lemma ResolvedHasNoLineFeed(raw: string, base: string, api: UrlApi)
    requires ServicesKeepLines(api)
    requires '\n' !in raw
    ensures '\n' !in ResolveUrl(raw, base, api)
  {
  }

  lemma ProxiedHasNoLineFeed(proxyPath: string, api: UrlApi, target: string, kind: ProxyKind)
    requires NoLineFeeds(proxyPath, api)
    requires '\n' !in target
    ensures '\n' !in BuildProxyUrl(proxyPath, api.encode, target, kind)
  {
    if !IsAlreadyProxied(proxyPath, target) {
      ProxyUrlShape(proxyPath, api.encode, target, kind);
      var middle := (if '?' in proxyPath then "&" else "?") + "type=" + KindName(kind) + "&";
      var encoded := api.encode(target);
      assert '\n' !in encoded;
      assert '\n' !in middle;
      assert '\n' !in ProxyParam;
      assert '\n' !in proxyPath + middle + ProxyParam + encoded;
    }
  }

  /** Every character of the trimmed text occurs in the original. */
  lemma TrimInfix(s: string)
    ensures forall c :: c in Trim(s) ==> c in s
  {
    var t := TrimStart(s);
    assert forall c :: c in t ==> c in s;
    assert forall c :: c in TrimEnd(t) ==> c in t;
  }

  /** The rewritten playlist has exactly as many lines as the original,
      counted the same way the rewrite splits them. */
  lemma {:induction false} RewritePreservesLineCount(content: string, upstream: Url, proxyPath: string, api: UrlApi)
    requires NoLineFeeds(proxyPath, api)
    ensures |SplitLines(RewriteManifest(content, upstream, proxyPath, api))| == |SplitLines(content)|
  {
    var lines := SplitLines(content);
    var out := RewriteLines(lines, upstream.href, proxyPath, api);
    forall k | 0 <= k < |out| ensures '\n' !in out[k] {
      RewriteLineHasNoLineFeed(lines[k], upstream.href, proxyPath, api);
    }
    SplitLinesCount(out);
  }

  /** Why a request is refused before anything is fetched. */
  datatype RequestError = MissingUrl | InvalidUrl | ProtocolNotAllowed

  datatype ProxyRequest = Reject(error: RequestError) | Forward(target: Url, kind: ProxyKind)

  /** The validation chain at the top of `GET`. */
  function ValidateProxyRequest(urlParam: Option<string>, typeParam: Option<string>, api: UrlApi): (d: ProxyRequest)
    ensures d.Forward? <==> urlParam.Some? && urlParam.value != "" && api.parse(urlParam.value).Some?
                            && AllowedProtocol(api.parse(urlParam.value).value.protocol)
    ensures d.Forward? ==> api.parse(urlParam.value) == Some(d.target)
    ensures d.Forward? ==> (d.kind == Manifest <==> typeParam == Some("manifest"))
    ensures d == Reject(MissingUrl) <==> urlParam.None? || urlParam.value == ""
  {
    if urlParam.None? || urlParam.value == "" then Reject(MissingUrl)
    else match api.parse(urlParam.value)
      case None => Reject(InvalidUrl)
      case Some(target) =>
        if !AllowedProtocol(target.protocol) then Reject(ProtocolNotAllowed)
        else Forward(target, if typeParam == Some("manifest") then Manifest else Segment)
  }

  /** What the upstream fetch produced: its status, its headers (names in
      lower case) and, for playlists, its text (None when reading it fails). */
  datatype Upstream = Upstream(status: int, headers: map<string, string>, text: Option<string>)

  datatype ResponseError =
    | BadRequest(reason: RequestError)
    | UpstreamError(upstreamStatus: int)
    | ManifestUpstreamError(manifestStatus: int)
    | ProxyFailed

  datatype Body = ErrorJson(error: ResponseError) | PlaylistText(text: string) | RelayedBody

  datatype Response = Response(status: int, headers: map<string, string>, body: Body)

  const CacheControl: string := "private, max-age=5"
  const PlaylistContentType: string := "application/vnd.apple.mpegurl; charset=utf-8"
  const CopiedHeaders: set<string> := {"content-type", "accept-ranges", "content-range"}

  /** The segment response headers: the content type and the two range headers when the
      upstream sent them with a non-empty value, and the cache policy. */
  function SegmentHeaders(upstream: map<string, string>): (h: map<string, string>)
    ensures "cache-control" in h && h["cache-control"] == CacheControl
    ensures forall name :: name in h && name != "cache-control" ==>
              name in CopiedHeaders && name in upstream && upstream[name] != "" && h[name] == upstream[name]
    ensures forall name :: name in CopiedHeaders && name in upstream && upstream[name] != "" ==>
              name in h && h[name] == upstream[name]
  {
    var copied := map name | name in CopiedHeaders && name in upstream && upstream[name] != "" :: upstream[name];
    copied["cache-control" := CacheControl]
  }

  /** `searchParams.get('type') || 'segment'`: the label the handler
      compares against "segment" and "manifest". Any other label takes the
      manifest wording on an upstream error and the segment path otherwise. */
  function TypeLabel(typeParam: Option<string>): (name: string)
    ensures typeParam.None? || typeParam.value == "" ==> name == "segment"
    ensures typeParam.Some? && typeParam.value != "" ==> name == typeParam.value
    ensures name != ""
  {
    match typeParam
    case None => "segment"
    case Some(t) => if t == "" then "segment" else t
  }

  /** A status `Response.json` refuses to carry a body with (a null-body
      status of the Fetch standard), or refuses outright (outside 200 to
      599): building the error answer for it throws. */
  predicate CannotCarryJson(status: int) {
    status < 200 || status > 599 || status in {101, 103, 204, 205, 304}
  }

  /** The whole `GET`: validation, then the answer for what the fetch gave
      (`None` when `fetch` itself threw). A rejected request is answered the
      same whatever the upstream would have sent, so nothing is fetched for it.
      An upstream error whose status cannot carry the JSON error body (a 304,
      say) makes building that answer throw inside the `try`, so the `catch`
      answers 502. */
  function ProxyGet(urlParam: Option<string>, typeParam: Option<string>, upstream: Option<Upstream>,
                    proxyPath: string, api: UrlApi): (resp: Response)
    ensures ValidateProxyRequest(urlParam, typeParam, api).Reject? ==>
              resp == Response(400, map[], ErrorJson(BadRequest(ValidateProxyRequest(urlParam, typeParam, api).error)))
    ensures ValidateProxyRequest(urlParam, typeParam, api).Forward? ==>
              match upstream
              case None => resp.status == 502 && resp.body == ErrorJson(ProxyFailed)
              case Some(u) =>
                && (!IsOk(u.status) && CannotCarryJson(u.status) ==>
                      resp.status == 502 && resp.body == ErrorJson(ProxyFailed))
                && (!IsOk(u.status) && !CannotCarryJson(u.status) ==>
                      && resp.status == u.status
                      && resp.body == ErrorJson(if TypeLabel(typeParam) == "segment" then UpstreamError(u.status)
                                                else ManifestUpstreamError(u.status)))
                && (IsOk(u.status) && ValidateProxyRequest(urlParam, typeParam, api).kind == Segment ==>
                      resp == Response(u.status, SegmentHeaders(u.headers), RelayedBody))
                && (IsOk(u.status) && ValidateProxyRequest(urlParam, typeParam, api).kind == Manifest ==>
                      match u.text
                      case None => resp.status == 502 && resp.body == ErrorJson(ProxyFailed)
                      case Some(text) =>
                        && resp.status == 200
                        && resp.headers == map["content-type" := PlaylistContentType, "cache-control" := CacheControl]
                        && resp.body == PlaylistText(RewriteManifest(text, ValidateProxyRequest(urlParam, typeParam, api).target, proxyPath, api)))
  {
    match ValidateProxyRequest(urlParam, typeParam, api)
    case Reject(reason) => Response(400, map[], ErrorJson(BadRequest(reason)))
    case Forward(target, kind) =>
      match upstream
      case None => Response(502, map[], ErrorJson(ProxyFailed))
      case Some(u) =>
        if !IsOk(u.status) && CannotCarryJson(u.status) then
          Response(502, map[], ErrorJson(ProxyFailed))
        else if !IsOk(u.status) then
          Response(u.status, map[],
                   ErrorJson(if TypeLabel(typeParam) == "segment" then UpstreamError(u.status)
                             else ManifestUpstreamError(u.status)))
        else if kind == Manifest then
          match u.text
          case None => Response(502, map[], ErrorJson(ProxyFailed))
          case Some(text) =>
            Response(200, map["content-type" := PlaylistContentType, "cache-control" := CacheControl],
                     PlaylistText(RewriteManifest(text, target, proxyPath, api)))
        else
          Response(u.status, SegmentHeaders(u.headers), RelayedBody)
  }
}

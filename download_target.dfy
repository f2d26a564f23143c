/** The front of `src/app/api/download/route.ts`: recovering the real
    upstream address from a `url` parameter that may itself be a link to the
    relay, possibly percent-encoded several times over, and the checks `GET`
    makes on it before anything is fetched. */
module DownloadTarget {
  import opened Wrappers
  import opened Text
  import opened Web

  /** The loop in `normalizeNestedUrl` runs at most three times. */
  const DecodeRounds: nat := 3

  /** The `isHttp` helper. */
  predicate IsHttp(s: string) {
    StartsWith(s, "http://") || StartsWith(s, "https://")
  }

  /** Where the decode loop leaves `current` when it has `rounds` rounds left:
      it stops at an http(s) address, at a decode that throws, and at a decode
      that changes nothing. */
  function Unwrap(current: string, rounds: nat, decode: string -> Option<string>): string
    decreases rounds
  {
    if rounds == 0 || IsHttp(current) then current
    else match decode(current)
      case None => current
      case Some(decoded) => if decoded == current then current else Unwrap(decoded, rounds - 1, decode)
  }

  /** What `normalizeNestedUrl` returns: nothing for a missing, empty or blank
      input; otherwise the address the decode loop reaches, when it is an
      http(s) address. */
  function NestedTarget(raw: Option<string>, decode: string -> Option<string>): (r: Option<string>)
    ensures r.Some? ==> IsHttp(r.value)
    ensures raw.None? || AllSpace(raw.value) ==> r.None?
    ensures raw.Some? && IsHttp(Trim(raw.value)) ==> r == Some(Trim(raw.value))
    ensures (raw.Some? && !IsHttp(Trim(raw.value))
             && (decode(Trim(raw.value)).None? || decode(Trim(raw.value)) == Some(Trim(raw.value))))
            ==> r.None?
  {
    if raw.None? || raw.value == "" then None
    else
      var current := Trim(raw.value);
      if current == "" then None
      else
        var last := Unwrap(current, DecodeRounds, decode);
        if IsHttp(last) then Some(last) else None
  }

  /** `normalizeNestedUrl`, with its loop. */
  method NormalizeNestedUrl(raw: Option<string>, decode: string -> Option<string>) returns (r: Option<string>)
    ensures r == NestedTarget(raw, decode)
  {
    if raw.None? || raw.value == "" {
      return None;
    }
    var current := Trim(raw.value);
    if current == "" {
      return None;
    }
    var i := 0;
    while i < DecodeRounds
      invariant 0 <= i <= DecodeRounds
      invariant Unwrap(current, DecodeRounds - i, decode) == Unwrap(Trim(raw.value), DecodeRounds, decode)
    {
      if IsHttp(current) {
        return Some(current);
      }
      var decoded := decode(current);
      if decoded.None? || decoded.value == current {
        break;
      }
      current := decoded.value;
      i := i + 1;
    }
    r := if IsHttp(current) then Some(current) else None;
  }

  /** A chain of nestings: `chain[0]` is an http(s) address and every later
      entry is a non-address that decodes, with a visible change, to the
      entry before it. */
  ghost predicate EncodingChain(chain: seq<string>, decode: string -> Option<string>) {
    && |chain| >= 1
    && IsHttp(chain[0])
    && (forall k :: 0 < k < |chain| ==> !IsHttp(chain[k]))
    && (forall k :: 0 < k < |chain| ==> decode(chain[k]) == Some(chain[k - 1]) && chain[k] != chain[k - 1])
  }

  lemma {:induction false} UnwrapChain(chain: seq<string>, k: nat, rounds: nat, decode: string -> Option<string>)
    requires EncodingChain(chain, decode)
    requires k < |chain|
    ensures Unwrap(chain[k], rounds, decode) == if rounds >= k then chain[0] else chain[k - rounds]
    decreases rounds
  {
    if k > 0 && rounds > 0 {
      UnwrapChain(chain, k - 1, rounds - 1, decode);
    }
  }

  /** An address nested up to three times is recovered; a fourth level of
      nesting is refused. */
  lemma {:induction false} NestedTargetDepth(chain: seq<string>, decode: string -> Option<string>)
    requires EncodingChain(chain, decode)
    requires chain[|chain| - 1] != "" && Trim(chain[|chain| - 1]) == chain[|chain| - 1]
    ensures |chain| <= DecodeRounds + 1 ==> NestedTarget(Some(chain[|chain| - 1]), decode) == Some(chain[0])
    ensures |chain| == DecodeRounds + 2 ==> NestedTarget(Some(chain[|chain| - 1]), decode).None?
  {
    var top := chain[|chain| - 1];
    UnwrapChain(chain, |chain| - 1, DecodeRounds, decode);
    assert NestedTarget(Some(top), decode)
           == (if IsHttp(Unwrap(top, DecodeRounds, decode)) then Some(Unwrap(top, DecodeRounds, decode)) else None);
    if |chain| == DecodeRounds + 2 {
      assert Unwrap(top, DecodeRounds, decode) == chain[1];
    }
  }

  /** `proxyPath && absolute.pathname.startsWith(proxyPath) &&
      absolute.searchParams.has('url')`: an address that points at the relay. */
  predicate PointsAtRelay(u: Url, proxyPath: string) {
    proxyPath != "" && StartsWith(u.pathname, proxyPath) && GetParam(u.query, "url").Some?
  }

  /** `new URL(raw)` for what looks absolute, `new URL(raw, origin)` for the
      rest. */
  function ParseTarget(raw: string, origin: string, api: UrlApi): Option<Url> {
    if StartsWith(raw, "http") then api.parse(raw) else api.parseRelative(raw, origin)
  }

  /** `extractUpstreamUrl`: an address that points at the relay is replaced
      by its nested target (one level only: that target is not examined
      again); any other address is kept. Every failure gives nothing. */
  function ExtractUpstreamUrl(raw: string, origin: string, proxyPath: string, api: UrlApi): (r: Option<Url>)
    ensures ParseTarget(raw, origin, api).None? ==> r.None?
    ensures ParseTarget(raw, origin, api).Some? && !PointsAtRelay(ParseTarget(raw, origin, api).value, proxyPath)
            ==> r == ParseTarget(raw, origin, api)
    ensures ParseTarget(raw, origin, api).Some? && PointsAtRelay(ParseTarget(raw, origin, api).value, proxyPath) ==>
              var nested := NestedTarget(GetParam(ParseTarget(raw, origin, api).value.query, "url"), api.decode);
              && (nested.None? ==> r.None?)
              && (nested.Some? ==> IsHttp(nested.value) && r == api.parse(nested.value))
  {
    match ParseTarget(raw, origin, api)
    case None => None
    case Some(absolute) =>
      if PointsAtRelay(absolute, proxyPath) then
        match NestedTarget(GetParam(absolute.query, "url"), api.decode)
        case None => None
        case Some(resolved) => api.parse(resolved)
      else Some(absolute)
  }

  const DefaultFilename: string := "lunatv"

  /** The decision `GET` takes before any fetch. */
  datatype DownloadRequest = Refused(status: int) | Proceed(target: Url, filename: string)

  function ValidateDownload(urlParam: Option<string>, filenameParam: Option<string>, origin: string,
                            proxyPath: string, api: UrlApi): (d: DownloadRequest)
    ensures d.Refused? ==> d.status == 400
    ensures d.Proceed? <==> && urlParam.Some? && urlParam.value != ""
                            && ExtractUpstreamUrl(urlParam.value, origin, proxyPath, api).Some?
                            && AllowedProtocol(ExtractUpstreamUrl(urlParam.value, origin, proxyPath, api).value.protocol)
    ensures d.Proceed? ==> && Some(d.target) == ExtractUpstreamUrl(urlParam.value, origin, proxyPath, api)
                           && AllowedProtocol(d.target.protocol)
                           && d.filename != ""
                           && (filenameParam.Some? && filenameParam.value != "" ==> d.filename == filenameParam.value)
                           && (filenameParam.None? || filenameParam.value == "" ==> d.filename == DefaultFilename)
  {
    var filename := if filenameParam.Some? && filenameParam.value != "" then filenameParam.value else DefaultFilename;
    if urlParam.None? || urlParam.value == "" then Refused(400)
    else match ExtractUpstreamUrl(urlParam.value, origin, proxyPath, api)
      case None => Refused(400)
      case Some(target) =>
        if !AllowedProtocol(target.protocol) then Refused(400) else Proceed(target, filename)
  }
}

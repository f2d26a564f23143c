/** `collectSegments` of `src/app/api/download/route.ts`: fetch a playlist,
    and when it is a master playlist follow its highest-bandwidth variant,
    at most two levels down. The network is a map from URL to what fetching
    it gives; an absent URL is a fetch that throws. */
module Collect {
  import opened Wrappers
  import opened Web
  import opened Manifest

  /** The deepest level `collectSegments` fetches: levels 0, 1 and 2. */
  const MaxDepth: nat := 2

  /** What fetching one URL gives: a status and, when the body can be read,
      its text. */
  datatype Fetched = Fetched(status: int, text: Option<string>)

  datatype CollectError =
    | TooDeep               // "Manifest nesting too deep"
    | FetchFailed(status: int)
    | NetworkError          // the fetch or the body read threw
    | BadUrl                // `new URL` threw on an entry or on the chosen variant
    | NoSegments            // neither segments nor variants

  /** The index the stable descending sort puts first: the first variant
      among those with the highest bandwidth. */
  function BestIndex(vs: seq<Variant>): (k: nat)
    requires |vs| > 0
    ensures k < |vs|
    ensures forall j :: 0 <= j < |vs| ==> vs[j].bandwidth <= vs[k].bandwidth
    ensures forall j :: 0 <= j < k ==> vs[j].bandwidth < vs[k].bandwidth
    decreases |vs|
  {
    if |vs| == 1 then 0
    else
      var k := BestIndex(vs[..|vs| - 1]);
      assert forall j :: 0 <= j < |vs| - 1 ==> vs[..|vs| - 1][j] == vs[j];
      if vs[|vs| - 1].bandwidth > vs[k].bandwidth then |vs| - 1 else k
  }

  /** The first-highest variant is the only one: any index that is maximal
      and strictly above everything before it is `BestIndex`. */
  lemma BestIndexUnique(vs: seq<Variant>, k: nat)
    requires k < |vs|
    requires forall j :: 0 <= j < |vs| ==> vs[j].bandwidth <= vs[k].bandwidth
    requires forall j :: 0 <= j < k ==> vs[j].bandwidth < vs[k].bandwidth
    ensures BestIndex(vs) == k
  {
  }

  /** `collectSegments(upstreamUrl, request, depth)`. */
  function CollectSegments(target: Url, depth: nat, fetch: map<string, Fetched>, api: UrlApi)
    : (r: Result<seq<string>, CollectError>)
    ensures depth > MaxDepth ==> r == Failure(TooDeep)
    ensures r.Success? ==> |r.value| > 0
    ensures depth <= MaxDepth && target.href !in fetch ==> r == Failure(NetworkError)
    ensures depth <= MaxDepth && target.href in fetch && !IsOk(fetch[target.href].status)
            ==> r == Failure(FetchFailed(fetch[target.href].status))
    ensures (depth <= MaxDepth && target.href in fetch && IsOk(fetch[target.href].status)
             && fetch[target.href].text.None?) ==> r == Failure(NetworkError)
    ensures (depth <= MaxDepth && target.href in fetch && IsOk(fetch[target.href].status)
             && fetch[target.href].text.Some?) ==>
              match ParsedManifest(fetch[target.href].text.value, target, api)
              case None => r == Failure(BadUrl)
              case Some(parsed) => |parsed.segments| == 0 && |parsed.variants| == 0 ==> r == Failure(NoSegments)
    decreases MaxDepth + 1 - depth
  {
    if depth > MaxDepth then Failure(TooDeep)
    else if target.href !in fetch then Failure(NetworkError)
    else
      var response := fetch[target.href];
      if !IsOk(response.status) then Failure(FetchFailed(response.status))
      else match response.text
        case None => Failure(NetworkError)
        case Some(text) =>
          match ParsedManifest(text, target, api)
          case None => Failure(BadUrl)
          case Some(parsed) =>
            if |parsed.segments| > 0 then Success(parsed.segments)
            else if |parsed.variants| > 0 then
              match api.parse(parsed.variants[BestIndex(parsed.variants)].url)
              case None => Failure(BadUrl)
              case Some(next) => CollectSegments(next, depth + 1, fetch, api)
            else Failure(NoSegments)
  }

  /** The URLs `collectSegments` fetches, in order. */
  function FetchTrace(target: Url, depth: nat, fetch: map<string, Fetched>, api: UrlApi): (urls: seq<string>)
    ensures depth <= MaxDepth + 1 ==> |urls| <= MaxDepth + 1 - depth
    ensures depth <= MaxDepth ==> |urls| >= 1 && urls[0] == target.href
    decreases MaxDepth + 1 - depth
  {
    if depth > MaxDepth then []
    else if target.href !in fetch then [target.href]
    else
      var response := fetch[target.href];
      if !IsOk(response.status) || response.text.None? then [target.href]
      else match ParsedManifest(response.text.value, target, api)
        case None => [target.href]
        case Some(parsed) =>
          if |parsed.segments| == 0 && |parsed.variants| > 0 then
            match api.parse(parsed.variants[BestIndex(parsed.variants)].url)
            case None => [target.href]
            case Some(next) => [target.href] + FetchTrace(next, depth + 1, fetch, api)
          else [target.href]
  }

  /** The result depends on the fetched URLs alone: two networks that agree
      on them give the same result. With the bound on the trace, at most
      three playlists are ever fetched. */
  lemma {:induction false} CollectReadsOnlyTrace(target: Url, depth: nat, f1: map<string, Fetched>,
                                                 f2: map<string, Fetched>, api: UrlApi)
    requires forall u :: u in FetchTrace(target, depth, f1, api) ==>
               (u in f1 <==> u in f2) && (u in f1 ==> f1[u] == f2[u])
    ensures CollectSegments(target, depth, f1, api) == CollectSegments(target, depth, f2, api)
    ensures FetchTrace(target, depth, f1, api) == FetchTrace(target, depth, f2, api)
    decreases MaxDepth + 1 - depth
  {
    if depth <= MaxDepth {
      var trace := FetchTrace(target, depth, f1, api);
      assert target.href in trace;
      if target.href in f1 {
        var response := f1[target.href];
        if IsOk(response.status) && response.text.Some? {
          match ParsedManifest(response.text.value, target, api)
          case None =>
          case Some(parsed) =>
            if |parsed.segments| == 0 && |parsed.variants| > 0 {
              match api.parse(parsed.variants[BestIndex(parsed.variants)].url)
              case None =>
              case Some(next) =>
                var rest := FetchTrace(next, depth + 1, f1, api);
                assert trace == [target.href] + rest;
                forall u | u in rest ensures (u in f1 <==> u in f2) && (u in f1 ==> f1[u] == f2[u]) {
                  assert u in trace;
                }
                CollectReadsOnlyTrace(next, depth + 1, f1, f2, api);
            }
        }
      }
    }
  }

  /** A media playlist at any level within reach is returned as parsed, in
      order. */
  lemma MediaPlaylistReturned(target: Url, depth: nat, fetch: map<string, Fetched>, api: UrlApi, text: string)
    requires depth <= MaxDepth
    requires target.href in fetch && IsOk(fetch[target.href].status) && fetch[target.href].text == Some(text)
    requires ParsedManifest(text, target, api).Some? && |ParsedManifest(text, target, api).value.segments| > 0
    ensures CollectSegments(target, depth, fetch, api) == Success(ParsedManifest(text, target, api).value.segments)
  {
  }

  /** A master playlist hands over to its first highest-bandwidth variant,
      one level deeper. */
  lemma MasterPlaylistFollowsBest(target: Url, depth: nat, fetch: map<string, Fetched>, api: UrlApi, text: string)
    requires depth <= MaxDepth
    requires target.href in fetch && IsOk(fetch[target.href].status) && fetch[target.href].text == Some(text)
    requires ParsedManifest(text, target, api).Some?
    requires |ParsedManifest(text, target, api).value.segments| == 0
    requires |ParsedManifest(text, target, api).value.variants| > 0
    ensures var vs := ParsedManifest(text, target, api).value.variants;
            var best := vs[BestIndex(vs)];
            && (forall j :: 0 <= j < |vs| ==> vs[j].bandwidth <= best.bandwidth)
            && (forall j :: 0 <= j < BestIndex(vs) ==> vs[j].bandwidth < best.bandwidth)
            && CollectSegments(target, depth, fetch, api)
               == match api.parse(best.url)
                  case None => Failure(BadUrl)
                  case Some(next) => CollectSegments(next, depth + 1, fetch, api)
  {
  }
}

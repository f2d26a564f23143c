# LunaTV stream relay and downloader, modelled in Dafny

This project models the part of LunaTV that relays and downloads HLS video.
It has three pieces:

- **The relay endpoint** (`/api/proxy`). It validates the `url` and `type`
  parameters and fetches the upstream resource. A segment is answered with
  its content type and its two range headers copied from upstream. A playlist is rewritten
  so that every media URI and every `#EXT-X-KEY` `URI="…"` attribute
  resolves against the playlist's own address and points back at the relay.
- **The download endpoint** (`/api/download`). It first recovers the real
  upstream address from a `url` parameter. That parameter may itself be a
  relay link, percent-encoded up to three times. It then reads the playlist
  and follows the highest-bandwidth variant, at most two levels deep. It
  streams the segments in order while fetching several at once: a bounded
  window of downloads and a reorder buffer. It labels the file with an
  RFC 6266 `Content-Disposition` header.
- **The cookie-based authentication helpers.** They read an `auth` cookie
  on the server and in the browser (where the cookie may be
  percent-encoded twice). An `AUTH_DISABLED` switch and a public fallback
  identity are used when no usable cookie exists.

The modules follow the source files:

| module | models |
|---|---|
| `Wrappers`, `Text`, `Web` | `Option`/`Result`; the JavaScript string operations the code uses (`trim`, `split`, `join`, `startsWith`, `includes`, `indexOf`, `toLowerCase`); the URL, percent-codec and protocol checks, as parameters |
| `ProxyUtils` | `src/lib/proxy-utils.ts` |
| `ProxyRoute` | `src/app/api/proxy/route.ts` |
| `DownloadTarget` | `normalizeNestedUrl`, `extractUpstreamUrl` and the checks at the top of `GET` in `src/app/api/download/route.ts` |
| `Manifest` | `parseManifest` |
| `Collect` | `collectSegments` |
| `Prefetch` | `streamSegmentsWithPrefetch`, as a class whose fields are the closure's variables |
| `Disposition` | `buildDisposition` and the choice of saved extension |
| `Auth` | `src/lib/auth.ts` |

Platform services are parameters:

- The WHATWG URL parser, `decodeURIComponent` and `encodeURIComponent` are
  the fields of `Web.UrlApi`. A throwing parse or decode is `None`.
- `JSON.parse` is a parameter that gives `None` where it throws.
- A network is a map from URL to what fetching it gives.
- `Date.now()`, environment variables and `window` are plain parameters.

The download streamer is event-driven. Each event becomes a method of
`Prefetch.Prefetcher`:

- a segment download finishing (`Complete`) or throwing (`Fail`);
- the request's `abort` signal (`RequestAbort`);
- the consumer cancelling the stream (`Cancel`).

Any interleaving of these events is a sequence of method calls. The class
invariant `Valid` holds between calls. It says:

- at most `concurrency` downloads are in flight;
- the buffer only holds segments that are not yet streamed;
- the bytes enqueued so far are exactly the concatenation of segments
  `0 .. nextToStream - 1`;
- `closed`, the abort listener and the upstream abort move together;
- a `Closed` stream has streamed every segment.

`Prefetch.DeliverAll` shows that, when every download succeeds in any
order, the stream closes with exactly the concatenation of all segments.

## Model

| member | source | states |
|---|---|---|
| `Text.JoinSplit` | src/app/api/proxy/route.ts:21-42 | joining the pieces of a split with the separator gives back the original text |
| `Text.SplitJoin` | src/app/api/proxy/route.ts:21-42 | splitting a join of separator-free pieces gives back the pieces |
| `Text.SplitLinesCount` | src/app/api/proxy/route.ts:21-42 | splitting on `\r?\n` a join of line-feed-free lines gives as many lines |
| `Text.Split` | src/app/api/proxy/route.ts:21 | `split` on one character gives at least one piece, and no piece holds the separator |
| `Text.SplitLines` | src/app/api/proxy/route.ts:21 | `split(/\r?\n/)` gives as many lines as there are line-feed pieces, and no line holds a line feed |
| `Text.SplitLinesPieces` | src/app/api/proxy/route.ts:21 | a piece followed by a line feed loses exactly one carriage return when it ends with one and is otherwise kept as it is; the last piece is kept whole. So `\r\n` endings come out as bare lines |
| `Text.Trim` | src/app/api/download/route.ts:99 | the trimmed text is no longer than the input, has no ECMAScript white space or line terminator at either end, and is empty exactly when the input is all white space; `TrimIsInfix` states which characters remain |
| `Text.TrimIsInfix` | src/app/api/download/route.ts:99 | what `trim` keeps is the infix of the text between a run of white space at its start and one at its end |
| `Text.TrimIdempotent` | src/lib/proxy-utils.ts:3-6 | trimming twice is trimming once |
| `Text.Lower` | src/lib/auth.ts:10-14 | `toLowerCase` on ASCII: same length, and each letter is lowered independently |
| `ProxyUtils.ProxyPath` | src/lib/proxy-utils.ts:3-6 | the relay path is the trimmed public setting, else the trimmed server setting, else `/api/proxy`; it is never blank and is already trimmed |
| `ProxyUtils.IsAlreadyProxied` | src/lib/proxy-utils.ts:14-18 | definition: an empty URL, or one that mentions both the relay path and `url=`; `BuildProxyUrlIdempotent` proves every relay URL passes it |
| `ProxyUtils.BuildProxyUrl` | src/lib/proxy-utils.ts:14-30 | an empty or already-relayed target is returned as it is; any other target becomes the relay path, then `?` (or `&` when the path already has a query), ending in `&url=` and the encoded target |
| `ProxyUtils.ProxyUrlShape` | src/lib/proxy-utils.ts:27-29 | unfolds the definition for a target that is not yet relayed: the path, the separator, `type=<kind>&`, `url=` and the encoded target |
| `ProxyUtils.BuildProxyUrlIdempotent` | src/lib/proxy-utils.ts:14-30 | a relay URL is recognised as already relayed, so relaying it again, with either kind, changes nothing |
| `ProxyUtils.WrapEpisodesWithProxy` | src/lib/proxy-utils.ts:32-37 | every episode URL is relayed as a playlist, in order and one for one |
| `ProxyUtils.WrapEpisodesIdempotent` | src/lib/proxy-utils.ts:32-37 | wrapping an already wrapped episode list changes nothing |
| `ProxyRoute.ResolveUrl` | src/app/api/proxy/route.ts:12-18 | the target is resolved against the playlist address, and kept as written when resolution throws |
| `ProxyRoute.UriMatchAt` | src/app/api/proxy/route.ts:29 | `URI="([^"]+)"` matches at a position exactly when `URI="` starts there and a non-empty quoted value follows; the match ends at the closing quote |
| `ProxyRoute.FirstUriMatch` | src/app/api/proxy/route.ts:29 | the leftmost match of the attribute pattern, with no match before it; none at all when it is `None` |
| `ProxyRoute.RewriteKeyLineKeepsRest` | src/app/api/proxy/route.ts:28-33 | a key line without a `URI="…"` attribute is unchanged; otherwise only the first attribute's value is replaced, by the relayed (as a segment), resolved URI, and the text around it is kept |
| `ProxyRoute.RewriteKeyLine` | src/app/api/proxy/route.ts:28-33 | definition of the `replace` on a key line; its properties are stated by `RewriteKeyLineKeepsRest` and `KeyLineHasNoLineFeed` |
| `ProxyRoute.RelayUri` | src/app/api/proxy/route.ts:38-40 | definition of the URI-line branch; its properties are stated by `RewriteUriLine` |
| `ProxyRoute.RewriteLine` | src/app/api/proxy/route.ts:23-41 | definition of the `map` callback; its properties are stated by `RewriteLineKeepsTags`, `RewriteUriLine`, `RewriteRelayedLine` and `RewriteLineHasNoLineFeed` |
| `ProxyRoute.ContentLineRelayed` | src/app/api/proxy/route.ts:35-40 | unfolds the definition: a non-blank line that is not a tag takes the URI branch |
| `ProxyRoute.RewriteLineKeepsTags` | src/app/api/proxy/route.ts:24-37 | unfolds the definition: blank lines and tags other than `#EXT-X-KEY` come out unchanged, and key lines go through the attribute rewrite |
| `ProxyRoute.RewriteUriLine` | src/app/api/proxy/route.ts:38-40 | a URI line becomes its resolved URI relayed as a playlist when it ends in `.m3u8` and as a segment otherwise; the result is recognised as already relayed |
| `ProxyRoute.RewriteRelayedLine` | src/app/api/proxy/route.ts:38-40 | for a URI line whose resolved URL is already relayed, the rewrite is that resolved URL; so, for such a line, a second pass keeps it exactly when resolving gives it back |
| `ProxyRoute.RewriteLines` | src/app/api/proxy/route.ts:22-41 | the `map`: one rewritten line per input line, in order |
| `ProxyRoute.RewriteManifest` | src/app/api/proxy/route.ts:20-43 | definition: split on `\r?\n`, rewrite each line, join with `\n`; `RewritePreservesLineCount` states its line count |
| `ProxyRoute.RewriteLineHasNoLineFeed` | src/app/api/proxy/route.ts:23-41 | rewriting a line never introduces a line feed, given URL and codec services that never emit one |
| `ProxyRoute.RewritePreservesLineCount` | src/app/api/proxy/route.ts:20-43 | the rewritten playlist has exactly as many lines as the original |
| `ProxyRoute.ValidateProxyRequest` | src/app/api/proxy/route.ts:67-89 | a request goes on to the fetch exactly when `url` is present, non-empty, parses, and is http(s); a missing or empty `url` is the first error; it is fetched as a playlist exactly when `type` is `manifest` |
| `ProxyRoute.SegmentHeaders` | src/app/api/proxy/route.ts:121-134 | a segment response carries `cache-control: private, max-age=5`, and copies exactly those of `content-type`, `accept-ranges` and `content-range` that upstream sent non-empty |
| `ProxyRoute.TypeLabel` | src/app/api/proxy/route.ts:87-89 | the label is the `type` parameter when it is non-empty, and `segment` when it is missing or empty |
| `ProxyRoute.CannotCarryJson` | src/app/api/proxy/route.ts:96-106 | definition: the statuses for which `NextResponse.json` throws, which are the null-body statuses and those outside 200 to 599 |
| `ProxyRoute.ProxyGet` | src/app/api/proxy/route.ts:66-146 | a refused request is a 400 whatever upstream would send. A thrown fetch is a 502. An upstream error is a 502 when its status cannot carry the JSON error body (a 304, say), because building that answer throws inside the `try`. Any other upstream error keeps its status, with segment wording only for the `segment` label. A playlist is answered 200 with its rewritten text and playlist headers, and a failed body read is a 502. A segment is relayed with its status and the copied headers |
| `DownloadTarget.NestedTarget` | src/app/api/download/route.ts:18-42 | the result is always an http(s) address. A missing or blank input gives none. An http(s) input is returned trimmed. A non-address that fails to decode, or decodes to itself, gives none |
| `DownloadTarget.IsHttp` | src/app/api/download/route.ts:23-24 | definition of the `isHttp` helper: the text starts with `http://` or `https://`; `NestedTarget` states that every result passes it |
| `DownloadTarget.Unwrap` | src/app/api/download/route.ts:26-39 | definition of the decode loop's outcome; `NormalizeNestedUrl` and `NestedTargetDepth` state its properties |
| `DownloadTarget.NormalizeNestedUrl` | src/app/api/download/route.ts:18-42 | the decode loop computes `NestedTarget` |
| `DownloadTarget.NestedTargetDepth` | src/app/api/download/route.ts:26-41 | an address percent-encoded up to three times over is recovered; a fourth level is refused |
| `DownloadTarget.ExtractUpstreamUrl` | src/app/api/download/route.ts:44-69 | an unparsable address gives nothing. An address that does not point at the relay is kept. A relay link is replaced by its nested http(s) target, parsed again, or by nothing when there is none |
| `DownloadTarget.PointsAtRelay` | src/app/api/download/route.ts:54-58 | definition: a non-empty relay path, a pathname starting with it, and a `url` parameter |
| `DownloadTarget.ParseTarget` | src/app/api/download/route.ts:50-52 | definition: parsed as absolute when it starts with `http`, against the origin otherwise |
| `Web.GetParam` | src/app/api/download/route.ts:57-59 | `searchParams.get`: the value of the first pair with that name, and none exactly when no pair has it |
| `DownloadTarget.ValidateDownload` | src/app/api/download/route.ts:289-304 | the download proceeds exactly when `url` is non-empty and extracts to an http(s) address. Every refusal is a 400. The file name is the parameter, or `lunatv` when it is missing or empty |
| `Manifest.DigitRun` | src/app/api/download/route.ts:102 | `\d+` consumes the longest run of ASCII digits |
| `Manifest.Decimal` | src/app/api/download/route.ts:102-103 | the decimal rendering used to state the bandwidth round trip is a non-empty run of digits |
| `Manifest.DecimalRoundTrip` | src/app/api/download/route.ts:103 | `Number` of a rendered number gives the number back |
| `Manifest.FindBandwidth` | src/app/api/download/route.ts:102 | the case-insensitive `BANDWIDTH=` followed by a digit is found at its leftmost position, or shown absent |
| `Manifest.BandwidthOf` | src/app/api/download/route.ts:102-103 | a tag without a `BANDWIDTH=` match gives 0 |
| `Manifest.BandwidthRoundTrip` | src/app/api/download/route.ts:101-104 | a tag carrying `BANDWIDTH=<n>`, with no earlier `b` or `B`, reads back as `n` |
| `Manifest.Classify` | src/app/api/download/route.ts:99-106 | after trimming: blank, `#EXT-X-STREAM-INF` with its bandwidth, another tag, or an entry whose text is the trimmed line |
| `Manifest.ParseManifest` | src/app/api/download/route.ts:86-116 | the method computes the parse over the manifest's lines |
| `Manifest.ParseManifestLines` | src/app/api/download/route.ts:93-115 | the loop over the lines, with its accumulators, computes the fold over the line kinds |
| `Manifest.ParseNextLine` | src/app/api/download/route.ts:98-113 | one more line is one more step of the fold |
| `Manifest.FailurePersists` | src/app/api/download/route.ts:107 | once resolving an entry throws, the whole parse throws |
| `Manifest.ParseSucceedsIff` | src/app/api/download/route.ts:107 | the parse succeeds exactly when every entry line resolves against the base URL |
| `Manifest.ParseBandwidth` | src/app/api/download/route.ts:96-105 | the current bandwidth is that of the last stream-info tag, or 0 |
| `Manifest.ParseSegments` | src/app/api/download/route.ts:107-112 | the segments are exactly the resolved entry lines not ending in `.m3u8`, in order |
| `Manifest.ParseVariants` | src/app/api/download/route.ts:101-111 | the variants are exactly the resolved `.m3u8` entry lines, in order, each with the bandwidth of the stream-info tag before it |
| `Manifest.ContentSplits` | src/app/api/download/route.ts:106-112 | every entry line is either a segment or a variant |
| `Manifest.EntryCount` | src/app/api/download/route.ts:98-113 | segments and variants together are as many as the entry lines |
| `Collect.BestIndex` | src/app/api/download/route.ts:139-141 | the first element of the stable descending sort is the first variant with the highest bandwidth: no variant is higher, and every earlier one is strictly lower |
| `Collect.BestIndexUnique` | src/app/api/download/route.ts:139-141 | that variant is the only index with both properties |
| `Collect.CollectSegments` | src/app/api/download/route.ts:118-145 | past depth 2 the result is "nesting too deep". A success is never an empty list. Within reach: a fetch that throws or a body that cannot be read is a network error, a non-ok status fails with that status, an entry that does not resolve is a bad URL, and a playlist with neither segments nor variants fails with "no segments" |
| `Collect.FetchTrace` | src/app/api/download/route.ts:123-142 | at most three playlists are fetched, the first being the given address |
| `Collect.CollectReadsOnlyTrace` | src/app/api/download/route.ts:118-145 | the result depends only on what the fetched addresses return |
| `Collect.MediaPlaylistReturned` | src/app/api/download/route.ts:136-138 | a media playlist at any level within reach is returned as parsed |
| `Collect.MasterPlaylistFollowsBest` | src/app/api/download/route.ts:139-142 | a master playlist hands over to its first highest-bandwidth variant, one level deeper |
| `Prefetch.Concat` | src/app/api/download/route.ts:190-192 | the bytes of no segments are empty |
| `Prefetch.ConcatNext` | src/app/api/download/route.ts:184-194 | streaming one more segment appends its chunks |
| `Prefetch.Prefetcher.HeadPending` | src/app/api/download/route.ts:206-267 | while the stream is readable, the next segment to stream is being downloaded |
| `Prefetch.Prefetcher.constructor` | src/app/api/download/route.ts:157-180 | `start`: with no segments the stream closes empty at once. Otherwise the first `min(concurrency, count)` downloads are in flight and the stream is readable |
| `Prefetch.Prefetcher.Cleanup` | src/app/api/download/route.ts:164-171 | runs once: it closes, detaches the abort listener, aborts the upstream fetches and clears the buffer; later calls change nothing |
| `Prefetch.Prefetcher.ErrorStream` | src/app/api/download/route.ts:177 | erroring a readable stream makes it errored; any other state is kept |
| `Prefetch.Prefetcher.StreamHead` | src/app/api/download/route.ts:185-193 | the head segment leaves the buffer. Its chunks are appended to the output and the head advances, unless the stream is no longer readable and the segment has bytes, in which case the enqueue throws |
| `Prefetch.Prefetcher.Drain` | src/app/api/download/route.ts:184-194 | the `while` streams buffered segments in order while they are contiguous; afterwards the head is not buffered unless an enqueue threw |
| `Prefetch.Prefetcher.Flush` | src/app/api/download/route.ts:182-204 | nothing happens once failed. The output only grows. The stream is closed when everything is streamed and no download is active |
| `Prefetch.Prefetcher.StartDownload` | src/app/api/download/route.ts:212-215 | one more download is in flight, for the next index |
| `Prefetch.Prefetcher.Schedule` | src/app/api/download/route.ts:206-224 | nothing happens once failed; it starts downloads for consecutive indices until `concurrency` are active or none are left |
| `Prefetch.Prefetcher.OnError` | src/app/api/download/route.ts:251-260 | the first error marks the streamer failed, cleans up and errors the stream; if the streamer was still open this empties the buffer, and if it was already closed (`cleanup` runs once) the buffer stays as it was; later errors change nothing |
| `Prefetch.Prefetcher.Finally` | src/app/api/download/route.ts:261-266 | one download fewer is active. Unless failed, downloads are started until the concurrency limit is reached or none remain; once failed, the cursors, the pending set and the buffer stay as they were |
| `Prefetch.Prefetcher.Complete` | src/app/api/download/route.ts:249-266 | a finished download keeps the invariant and consumes one unit of work. The output only grows, and not at all once the stream is no longer readable (cancelled, aborted or errored). The stream changes only from readable to closed. A streamer that has failed changes nothing. Enqueueing a non-empty head segment after cancellation fails the streamer |
| `Prefetch.Prefetcher.Fail` | src/app/api/download/route.ts:251-266 | a thrown download leaves the pending set, fails the streamer, errors a readable stream and consumes one unit of work without changing the output. The first failure on an open streamer empties the buffer; otherwise the buffer is unchanged |
| `Prefetch.Prefetcher.RequestAbort` | src/app/api/download/route.ts:174-178 | while listening, the client's abort closes the streamer, errors the stream and empties the buffer, leaving the cursors, the active count and the pending set as they were; afterwards it changes nothing |
| `Prefetch.Prefetcher.Cancel` | src/app/api/download/route.ts:271-274 | cancelling a readable stream closes the streamer without failing it and empties the buffer, leaving the cursors, the active count and the pending set as they were; otherwise nothing changes |
| `Prefetch.FailAfterCloseKeepsBuffer` | src/app/api/download/route.ts:245-255 | a failure after a cancel or an abort does not clear a segment that a later completion put in the buffer, because `cleanup` returns early once closed |
| `Prefetch.DeliverAll` | src/app/api/download/route.ts:147-276 | when every download succeeds, in whatever order, the stream closes with exactly the concatenation of all segments |
| `Disposition.BaseName` | src/app/api/download/route.ts:279 | the base name is the file name, or `lunatv` when it is empty |
| `Disposition.MaskNonAscii` | src/app/api/download/route.ts:281-282 | each character is kept when ASCII and replaced by `_` otherwise |
| `Disposition.AsciiFallback` | src/app/api/download/route.ts:280-283 | the fallback is non-empty and all ASCII. It is as long as a non-empty base. A character is kept exactly when it is ASCII |
| `Disposition.AsciiFallbackKeepsAscii` | src/app/api/download/route.ts:280-283 | an ASCII name is its own fallback |
| `Disposition.AsciiFallbackIdempotent` | src/app/api/download/route.ts:280-283 | taking the fallback twice is taking it once |
| `Disposition.NormalizeExtension` | src/app/api/download/route.ts:285 | the extension gains a leading dot exactly when it lacks one |
| `Disposition.NormalizeExtensionIdempotent` | src/app/api/download/route.ts:285 | normalising twice is normalising once |
| `Disposition.BuildDisposition` | src/app/api/download/route.ts:278-287 | the header starts `attachment; filename="` and ends with the dotted extension |
| `Disposition.QuotedFilename` | src/app/api/download/route.ts:286 | the quoted parameter read back never contains a quote |
| `Disposition.DispositionRoundTrip` | src/app/api/download/route.ts:278-287 | for names and extensions without a double quote, reading the header back gives the ASCII fallback in `filename` and the encoded name in `filename*`, each with the dotted extension |
| `Disposition.QuotedPrefix` | src/app/api/download/route.ts:286 | a quoted part holding a quote-free prefix and then a quote announces that prefix alone |
| `Disposition.FallbackFirstQuote` | src/app/api/download/route.ts:280-283 | the fallback keeps the name's first double quote in place, with no quote before it |
| `Disposition.QuoteTruncatesFilename` | src/app/api/download/route.ts:278-287 | a double quote in the name is not escaped: the `filename` a reader finds stops at the name's first quote and is shorter than the intended fallback and extension |
| `Disposition.QuotedNameExample` | src/app/api/download/route.ts:278-287 | the name `a"b` is announced as `a` |
| `Disposition.SavedExtension` | src/app/api/download/route.ts:306-341 | a playlist is saved as `.ts`, a path without an extension as `.bin`, and anything else keeps its extension |
| `Auth.FirstSet` | src/lib/auth.ts:10-14 | `a \|\| b \|\| …` over settings: the first set, non-empty value, with every earlier one unset or empty; none exactly when all are unset or empty |
| `Auth.AuthDisabled` | src/lib/auth.ts:10-16 | definition of the switch; `AuthDisabledIff` states when it is on |
| `Auth.AuthDisabledIff` | src/lib/auth.ts:10-16 | authentication is off exactly when the first set flag is `true` in any letter case or `1`; a set public flag decides alone, and an unset one defers to the other |
| `Auth.ServerOwner` | src/lib/auth.ts:18-20 | the owner is `USERNAME` when it is set and non-empty, and `owner` otherwise |
| `Auth.ClientOwner` | src/lib/auth.ts:22-37 | the owner is the first of two settings that is set and non-empty, and `owner` when neither is |
| `Auth.Fallback` | src/lib/auth.ts:39-53 | without a usable cookie: the public owner identity at the given time when authentication is off, and nothing otherwise |
| `Auth.ServerAuthInfo` | src/lib/auth.ts:60-83 | the cookie is decoded once and parsed. The stored data is returned exactly when the cookie exists, decodes and parses. Otherwise the public identity is returned when authentication is off, and nothing otherwise |
| `Auth.CookieEntry` | src/lib/auth.ts:100-108 | an accepted cookie piece has a non-empty key without `=` and a non-empty value, and is the trimmed piece split at its first `=` |
| `Auth.CookieEntryRoundTrip` | src/lib/auth.ts:100-108 | a well-formed `key=value` pair is read back as written |
| `Auth.Entries` | src/lib/auth.ts:99 | one entry per `;`-separated piece, in order |
| `Auth.Jar` | src/lib/auth.ts:99-112 | the object the `reduce` builds never has a `__proto__` entry; `JarHasKey` and `JarLastWins` state its contents |
| `Auth.ParseCookies` | src/lib/auth.ts:99-112 | the `reduce`, with its accumulator, computes the cookie jar |
| `Auth.JarNext` | src/lib/auth.ts:106-108 | one more piece updates the accumulator by that piece's entry alone |
| `Auth.JarHasKey` | src/lib/auth.ts:99-112 | a key is in the jar exactly when it is not `__proto__` and some piece carries it |
| `Auth.JarLastWins` | src/lib/auth.ts:99-112 | when a key appears several times, the last piece carrying it gives its value |
| `Auth.DoubleDecode` | src/lib/auth.ts:121-127 | the cookie is decoded once, and once more when the first result still has a `%`; a throwing decode gives nothing |
| `Auth.DoubleDecodeRecovers` | src/lib/auth.ts:121-127 | text encoded twice is recovered when its single encoding has a `%`, and text encoded once is recovered when it has no `%` of its own |
| `Auth.DoubleDecodeOvershoots` | src/lib/auth.ts:124-127 | text encoded once that has a `%` of its own is decoded a second time |
| `Auth.BrowserAuthInfo` | src/lib/auth.ts:86-137 | without a `window` the result is nothing. Stored data is returned exactly when the jar's `auth` cookie is non-empty, double-decodes and parses, and it is then the parse of the double-decoded cookie. Otherwise the public identity is returned when authentication is off |

## Left out

- Network I/O is not modelled: `fetch`, `fetchWithDispatcher`, the upstream response bodies and `pickHeaders`. A fetch's outcome is a parameter: a map in `Collect`, an `Upstream` value in `ProxyRoute`, and the `Complete`/`Fail` events in `Prefetch`.
- The asynchronous scheduling of `downloadSegment` promises is not modelled. The model covers every interleaving of completion events, but not the time between them.
- `src/lib/http-client.ts` is not part of this model. `getDownloadConcurrency` is the constructor parameter `concurrency`, required to be at least 1, as that function guarantees.
- The WHATWG URL parser, `URL.toString`, `searchParams`, `encodeURIComponent` and `decodeURIComponent` are uninterpreted parameters. Properties that need their behaviour take it as a hypothesis, for example that they never emit a line feed.
- `JSON.parse` and the shape of the stored auth data are abstract. A value that parses to `null` is stored data like any other.
- `path.extname(...).toLowerCase()` is not modelled. `Disposition.SavedExtension` takes the extension it gives.
- The response headers and the body stream the download `GET` builds after validation are not modelled.
- `process.env`, `window.RUNTIME_CONFIG`, `document.cookie` and `Date.now()` are parameters.
- The server-side branch of `getClientOwnerUsername` (`src/lib/auth.ts:32-36`) is `Auth.ClientOwner` applied to the two public settings; it has no member of its own.
- `Manifest.BandwidthOf` reads numbers exactly. `Number` rounds integers above 2^53 to doubles.
- Characters are Unicode scalar values rather than UTF-16 code units. `Array.from` iterates by code point, so the ASCII fallback agrees with the source. Lone surrogates cannot be expressed.
- `Text.Lower` folds ASCII letters only. That is enough for comparing against `true` and `1`, but other letters are not lowered as `toLowerCase` would.
- `Collect.BestIndex` models only the first element of the sorted variant list, which is the only one used. The rest of the order is not modelled.
- `Prefetch.Prefetcher`: `new URL(segments[index])` is taken to succeed for every segment, because `parseManifest` produced them by serialising parsed URLs. A failure there is the same `Fail` event as a failed fetch.
- `Prefetch.Prefetcher.constructor`: a request already aborted before `start` adds its listener is not modelled. The event would never fire for it.
- `Prefetch.Prefetcher.Complete`: states the class invariant, progress, growth of the output and the allowed stream transitions, rather than the exact new state. The exact state depends on how far the drain gets and how many downloads `schedule` starts, and `Drain`, `Flush`, `Schedule` and `Finally` state those exactly. What it does state includes that a stream which is no longer readable receives no further bytes.
- `ProxyRoute.RewriteUriLine`: rewriting a rewritten playlist keeps its lines only when the resolver leaves an already relayed URL unchanged (`ProxyRoute.RewriteRelayedLine`). `resolveUrl` runs before the already-relayed check, so a relative relay path is made absolute on a second pass.
- `Auth.DoubleDecodeOvershoots`: a cookie value that was encoded once and whose text has a `%` of its own is decoded twice. This is behaviour of the source, stated as it is; it is not corrected.
- `Disposition.BuildDisposition`: a double quote or a backslash in the file name is put into `filename="…"` as it is, without the quoted-pair escape of RFC 9110. A reader then stops at the first quote (`Disposition.QuoteTruncatesFilename`). The round trip is stated only for names and extensions without a double quote (`Disposition.DispositionRoundTrip`).
- `Disposition.QuotedFilename` reads up to the next double quote and does not undo quoted-pair escapes, which the header never contains.

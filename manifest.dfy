/** `parseManifest` of `src/app/api/download/route.ts`: a lenient reading of
    an HLS playlist (RFC 8216) into media segment URIs and variant stream
    URIs, each variant tagged with the `BANDWIDTH` of the most recent
    `#EXT-X-STREAM-INF` tag (section 4.3.4.2 of RFC 8216). */
module Manifest {
  import opened Wrappers
  import opened Text
  import opened Web

  const StreamInfTag: string := "#EXT-X-STREAM-INF"
  const PlaylistSuffix: string := ".m3u8"

  /** The attribute name of `/BANDWIDTH=(\d+)/i`, in the lower case the
      ASCII-only case folding of a non-Unicode regular expression maps to. */
  const BandwidthKey: string := "bandwidth="

  /** `\d`: an ASCII decimal digit. */
  predicate IsDigit(c: char) {
    '0' <= c <= '9'
  }

  function DigitValue(c: char): nat
    requires IsDigit(c)
  {
    (c as int - '0' as int) as nat
  }

  /** The length of the run of digits at the start of `s` (what `\d+`
      consumes, greedily). */
  function DigitRun(s: string): (n: nat)
    ensures n <= |s|
    ensures forall i :: 0 <= i < n ==> IsDigit(s[i])
    ensures n == |s| || !IsDigit(s[n])
    decreases |s|
  {
    if |s| > 0 && IsDigit(s[0]) then 1 + DigitRun(s[1..]) else 0
  }

  /** `Number` of a string of decimal digits. */
  function DecimalValue(digits: string): nat
    requires forall i :: 0 <= i < |digits| ==> IsDigit(digits[i])
    decreases |digits|
  {
    if |digits| == 0 then 0
    else DecimalValue(digits[..|digits| - 1]) * 10 + DigitValue(digits[|digits| - 1])
  }

  /** The decimal rendering of a number, without leading zeros. */
  function Decimal(n: nat): (s: string)
    ensures |s| >= 1
    ensures forall i :: 0 <= i < |s| ==> IsDigit(s[i])
    decreases n
  {
    var last := ('0' as int + n % 10) as char;
    if n < 10 then [last] else Decimal(n / 10) + [last]
  }

  /** Reading a rendered number back gives the number. */
  lemma {:induction false} DecimalRoundTrip(n: nat)
    ensures DecimalValue(Decimal(n)) == n
    decreases n
  {
    var s := Decimal(n);
    if n >= 10 {
      assert s[..|s| - 1] == Decimal(n / 10);
      DecimalRoundTrip(n / 10);
    }
  }

  /** `/BANDWIDTH=(\d+)/i` matches at position `p`. */
  predicate BandwidthAt(line: string, p: nat) {
    p + |BandwidthKey| < |line| && Lower(line[p..p + |BandwidthKey|]) == BandwidthKey
    && IsDigit(line[p + |BandwidthKey|])
  }

  /** The leftmost match at or after `from`. */
  function FindBandwidth(line: string, from: nat): (r: Option<nat>)
    ensures r.Some? ==> from <= r.value && BandwidthAt(line, r.value)
    ensures r.Some? ==> forall p :: from <= p < r.value ==> !BandwidthAt(line, p)
    ensures r.None? ==> forall p :: from <= p ==> !BandwidthAt(line, p)
    decreases |line| - from
  {
    if from >= |line| then None
    else if BandwidthAt(line, from) then Some(from)
    else FindBandwidth(line, from + 1)
  }

  /** `bandwidthMatch ? Number(bandwidthMatch[1]) : 0`. Numbers beyond the
      exact range of a double are read exactly here. */
  function BandwidthOf(line: string): (bandwidth: nat)
    ensures FindBandwidth(line, 0).None? ==> bandwidth == 0
  {
    match FindBandwidth(line, 0)
    case None => 0
    case Some(p) =>
      var rest := line[p + |BandwidthKey|..];
      DecimalValue(rest[..DigitRun(rest)])
  }

  /** No match can start inside a `head` without the letter b. */
  lemma NoBandwidthBefore(head: string, tail: string, p: nat)
    requires forall i :: 0 <= i < |head| ==> AsciiLower(head[i]) != 'b'
    requires p < |head|
    ensures !BandwidthAt(head + tail, p)
  {
    var line := head + tail;
    assert line[p] == head[p];
    if p + |BandwidthKey| < |line| {
      assert Lower(line[p..p + |BandwidthKey|])[0] == AsciiLower(head[p]);
    }
  }

  /** The leftmost match is the first position that matches. */
  lemma {:induction false} FindBandwidthFirst(line: string, from: nat, p: nat)
    requires from <= p && BandwidthAt(line, p)
    requires forall q :: from <= q < p ==> !BandwidthAt(line, q)
    ensures FindBandwidth(line, from) == Some(p)
    decreases p - from
  {
    if from < p {
      FindBandwidthFirst(line, from + 1, p);
    }
  }

  /** `\d+` stops where the digits stop. */
  lemma {:induction false} DigitRunOf(digits: string, rest: string)
    requires forall i :: 0 <= i < |digits| ==> IsDigit(digits[i])
    requires rest == [] || !IsDigit(rest[0])
    ensures DigitRun(digits + rest) == |digits|
    decreases |digits|
  {
    if |digits| > 0 {
      assert (digits + rest)[1..] == digits[1..] + rest;
      DigitRunOf(digits[1..], rest);
    } else {
      assert digits + rest == rest;
    }
  }

  /** With no letter b before it, a match right after `head` is the first. */
  lemma FirstMatchAfter(head: string, tail: string)
    requires forall i :: 0 <= i < |head| ==> AsciiLower(head[i]) != 'b'
    requires BandwidthAt(head + tail, |head|)
    ensures FindBandwidth(head + tail, 0) == Some(|head|)
  {
    forall q | 0 <= q < |head| ensures !BandwidthAt(head + tail, q) {
      NoBandwidthBefore(head, tail, q);
    }
    FindBandwidthFirst(head + tail, 0, |head|);
  }

  /** A `#EXT-X-STREAM-INF` line whose attributes before `BANDWIDTH=` hold no
      letter b reads back the number written, whatever follows it. */
  lemma {:induction false} BandwidthRoundTrip(head: string, n: nat, rest: string)
    requires forall i :: 0 <= i < |head| ==> AsciiLower(head[i]) != 'b'
    requires rest == [] || !IsDigit(rest[0])
    ensures BandwidthOf(head + "BANDWIDTH=" + Decimal(n) + rest) == n
  {
    var digits := Decimal(n);
    var tail := "BANDWIDTH=" + (digits + rest);
    var line := head + "BANDWIDTH=" + digits + rest;
    assert line == head + tail;
    var p := |head|;
    assert line[p..p + |BandwidthKey|] == "BANDWIDTH=";
    assert Lower("BANDWIDTH=") == BandwidthKey;
    assert line[p + |BandwidthKey|..] == digits + rest;
    FirstMatchAfter(head, tail);
    DigitRunOf(digits, rest);
    assert (digits + rest)[..|digits|] == digits;
    DecimalRoundTrip(n);
  }

  /** What one line of a playlist is, once trimmed. */
  datatype LineKind = Blank | StreamInf(bandwidth: nat) | OtherTag | Content(text: string)

  function Classify(raw: string): (k: LineKind)
    ensures k == Blank <==> Trim(raw) == ""
    ensures k.StreamInf? <==> StartsWith(Trim(raw), StreamInfTag)
    ensures k.Content? <==> Trim(raw) != "" && !StartsWith(Trim(raw), "#")
    ensures k.StreamInf? ==> k.bandwidth == BandwidthOf(Trim(raw))
    ensures k.Content? ==> k.text == Trim(raw)
  {
    var line := Trim(raw);
    if line == "" then Blank
    else if StartsWith(line, StreamInfTag) then
      assert StartsWith(line, "#") by { assert line[0] == StreamInfTag[0]; }
      StreamInf(BandwidthOf(line))
    else if StartsWith(line, "#") then OtherTag
    else Content(line)
  }

  datatype Variant = Variant(url: string, bandwidth: nat)

  /** The two lists `parseManifest` fills, and its `currentBandwidth`. */
  datatype Playlist = Playlist(segments: seq<string>, variants: seq<Variant>, bandwidth: nat)

  /** `new URL(line, baseUrl).toString()`; None where it throws. */
  function ResolveEntry(text: string, base: string, api: UrlApi): Option<string> {
    match api.parseRelative(text, base)
    case None => None
    case Some(u) => Some(u.href)
  }

  /** One turn of the loop, for a line of the given kind; None when
      resolving the entry throws. */
  function Step(p: Playlist, kind: LineKind, base: string, api: UrlApi): Option<Playlist> {
    match kind
    case Blank => Some(p)
    case OtherTag => Some(p)
    case StreamInf(bw) => Some(p.(bandwidth := bw))
    case Content(text) =>
      match ResolveEntry(text, base, api)
      case None => None
      case Some(url) =>
        if EndsWith(text, PlaylistSuffix) then Some(p.(variants := p.variants + [Variant(url, p.bandwidth)]))
        else Some(p.(segments := p.segments + [url]))
  }

  const Empty: Playlist := Playlist([], [], 0)

  /** The kind of every line, in order. */
  function Kinds(lines: seq<string>): (kinds: seq<LineKind>)
    ensures |kinds| == |lines|
    decreases |lines|
  {
    if |lines| == 0 then [] else Kinds(lines[..|lines| - 1]) + [Classify(lines[|lines| - 1])]
  }

  /** The loop over the lines, as a function of their kinds: the state after
      the last line. */
  function ParseKinds(kinds: seq<LineKind>, base: string, api: UrlApi): Option<Playlist>
    decreases |kinds|
  {
    if |kinds| == 0 then Some(Empty)
    else match ParseKinds(kinds[..|kinds| - 1], base, api)
      case None => None
      case Some(p) => Step(p, kinds[|kinds| - 1], base, api)
  }

  /** What `parseManifest` returns; None where it throws. */
  function ParsedManifest(manifest: string, base: Url, api: UrlApi): Option<Playlist> {
    ParseKinds(Kinds(SplitLines(manifest)), base.href, api)
  }

  /** One more line is one more `Step`. */
  lemma ParseNextLine(lines: seq<string>, i: nat, base: string, api: UrlApi)
    requires i < |lines|
    ensures ParseKinds(Kinds(lines[..i + 1]), base, api)
            == match ParseKinds(Kinds(lines[..i]), base, api)
               case None => None
               case Some(p) => Step(p, Classify(lines[i]), base, api)
  {
    var ks := Kinds(lines[..i + 1]);
    assert lines[..i + 1][..i] == lines[..i];
    assert ks[..i] == Kinds(lines[..i]);
  }

  /** `parseManifest`: split into lines, then read them in order. */
  method ParseManifest(manifest: string, base: Url, api: UrlApi) returns (r: Option<Playlist>)
    ensures r == ParsedManifest(manifest, base, api)
  {
    var lines := SplitLines(manifest);
    r := ParseManifestLines(lines, base, api);
  }

  /** The loop of `parseManifest` over the lines of a playlist; None where
      resolving an entry throws. */
  method ParseManifestLines(lines: seq<string>, base: Url, api: UrlApi) returns (r: Option<Playlist>)
    ensures r == ParseKinds(Kinds(lines), base.href, api)
  {
    var segments: seq<string> := [];
    var variants: seq<Variant> := [];
    var currentBandwidth: nat := 0;
    for i := 0 to |lines|
      invariant ParseKinds(Kinds(lines[..i]), base.href, api) == Some(Playlist(segments, variants, currentBandwidth))
    {
      ParseNextLine(lines, i, base.href, api);
      ghost var before := Playlist(segments, variants, currentBandwidth);
      var line := Trim(lines[i]);
      if line == "" {
        assert Classify(lines[i]) == Blank;
      } else if StartsWith(line, StreamInfTag) {
        assert Classify(lines[i]) == StreamInf(BandwidthOf(line));
        currentBandwidth := BandwidthOf(line);
      } else if StartsWith(line, "#") {
        assert Classify(lines[i]) == OtherTag;
      } else {
        assert Classify(lines[i]) == Content(line);
        var resolved := api.parseRelative(line, base.href);
        if resolved.None? {
          FailurePersists(lines, i + 1, base.href, api);
          return None;
        }
        if EndsWith(line, PlaylistSuffix) {
          variants := variants + [Variant(resolved.value.href, currentBandwidth)];
        } else {
          segments := segments + [resolved.value.href];
        }
      }
      assert Step(before, Classify(lines[i]), base.href, api) == Some(Playlist(segments, variants, currentBandwidth));
    }
    assert lines[..|lines|] == lines;
    r := Some(Playlist(segments, variants, currentBandwidth));
  }

  /** Once a line has thrown, the whole parse has. */
  lemma {:induction false} FailurePersists(lines: seq<string>, i: nat, base: string, api: UrlApi)
    requires i <= |lines|
    requires ParseKinds(Kinds(lines[..i]), base, api).None?
    ensures ParseKinds(Kinds(lines), base, api).None?
    decreases |lines| - i
  {
    if i < |lines| {
      ParseNextLine(lines, i, base, api);
      FailurePersists(lines, i + 1, base, api);
    } else {
      assert lines[..i] == lines;
    }
  }

  /** The trimmed content lines, in order. */
  ghost function ContentLines(kinds: seq<LineKind>): seq<string>
    decreases |kinds|
  {
    if |kinds| == 0 then []
    else
      var init := ContentLines(kinds[..|kinds| - 1]);
      match kinds[|kinds| - 1]
      case Content(text) => init + [text]
      case _ => init
  }

  /** The bandwidth of the last `#EXT-X-STREAM-INF` line, or 0 when there is
      none: the value is never reset once read. */
  ghost function LastBandwidth(kinds: seq<LineKind>): nat
    decreases |kinds|
  {
    if |kinds| == 0 then 0
    else match kinds[|kinds| - 1]
      case StreamInf(bw) => bw
      case _ => LastBandwidth(kinds[..|kinds| - 1])
  }

  /** The content lines that are variant playlists, each with the bandwidth in
      force on the line before it. */
  ghost function VariantLines(kinds: seq<LineKind>): seq<(string, nat)>
    decreases |kinds|
  {
    if |kinds| == 0 then []
    else
      var init := kinds[..|kinds| - 1];
      match kinds[|kinds| - 1]
      case Content(text) =>
        if EndsWith(text, PlaylistSuffix) then VariantLines(init) + [(text, LastBandwidth(init))]
        else VariantLines(init)
      case _ => VariantLines(init)
  }

  /** The content lines that are media segments. */
  ghost function SegmentLines(kinds: seq<LineKind>): seq<string>
    decreases |kinds|
  {
    if |kinds| == 0 then []
    else
      var init := kinds[..|kinds| - 1];
      match kinds[|kinds| - 1]
      case Content(text) =>
        if EndsWith(text, PlaylistSuffix) then SegmentLines(init) else SegmentLines(init) + [text]
      case _ => SegmentLines(init)
  }

  /** Every content line is either a segment or a variant. */
  lemma {:induction false} ContentSplits(kinds: seq<LineKind>)
    ensures |SegmentLines(kinds)| + |VariantLines(kinds)| == |ContentLines(kinds)|
    decreases |kinds|
  {
    if |kinds| > 0 {
      ContentSplits(kinds[..|kinds| - 1]);
    }
  }

  /** The parse succeeds exactly when every content line resolves. */
  lemma {:induction false} ParseSucceedsIff(kinds: seq<LineKind>, base: string, api: UrlApi)
    ensures ParseKinds(kinds, base, api).Some?
            <==> forall k :: 0 <= k < |ContentLines(kinds)| ==> ResolveEntry(ContentLines(kinds)[k], base, api).Some?
    decreases |kinds|
  {
    if |kinds| > 0 {
      var init := kinds[..|kinds| - 1];
      ParseSucceedsIff(init, base, api);
      var c := ContentLines(kinds);
      var ci := ContentLines(init);
      var kind := kinds[|kinds| - 1];
      if ParseKinds(init, base, api).None? {
        assert ParseKinds(kinds, base, api).None?;
        var k :| 0 <= k < |ci| && ResolveEntry(ci[k], base, api).None?;
        assert c[k] == ci[k];
      } else {
        assert ParseKinds(init, base, api).Some?;
        assert forall k :: 0 <= k < |ContentLines(init)| ==> ResolveEntry(ContentLines(init)[k], base, api).Some?;
        assert forall k :: 0 <= k < |ci| ==> ResolveEntry(ci[k], base, api).Some?;
        assert ParseKinds(kinds, base, api) == Step(ParseKinds(init, base, api).value, kind, base, api);
        match kind
        case Content(text) =>
          assert c == ci + [text];
          assert c[|ci|] == text;
        case _ =>
          assert c == ci;
          assert ParseKinds(kinds, base, api).Some?;
          forall k | 0 <= k < |c| ensures ResolveEntry(c[k], base, api).Some? {
            assert c[k] == ci[k];
          }
      }
    }
  }

  /** The bandwidth a parse ends with is that of the last
      `#EXT-X-STREAM-INF` line. */
  lemma {:induction false} ParseBandwidth(kinds: seq<LineKind>, base: string, api: UrlApi)
    requires ParseKinds(kinds, base, api).Some?
    ensures ParseKinds(kinds, base, api).value.bandwidth == LastBandwidth(kinds)
    decreases |kinds|
  {
    if |kinds| > 0 {
      var init := kinds[..|kinds| - 1];
      var p := ParseKinds(init, base, api).value;
      assert ParseKinds(kinds, base, api) == Step(p, kinds[|kinds| - 1], base, api);
      ParseBandwidth(init, base, api);
    }
  }

  /** A successful parse lists exactly the resolved segment lines, in
      playlist order. */
  lemma {:induction false} ParseSegments(kinds: seq<LineKind>, base: string, api: UrlApi)
    requires ParseKinds(kinds, base, api).Some?
    ensures var p := ParseKinds(kinds, base, api).value;
            && |p.segments| == |SegmentLines(kinds)|
            && forall j :: 0 <= j < |p.segments| ==>
                 ResolveEntry(SegmentLines(kinds)[j], base, api) == Some(p.segments[j])
    decreases |kinds|
  {
    if |kinds| > 0 {
      var init := kinds[..|kinds| - 1];
      var p := ParseKinds(init, base, api).value;
      assert ParseKinds(kinds, base, api) == Step(p, kinds[|kinds| - 1], base, api);
      ParseSegments(init, base, api);
    }
  }

  /** A successful parse lists exactly the resolved variant lines, in
      playlist order, each with the bandwidth in force before its line. */
  lemma {:induction false} ParseVariants(kinds: seq<LineKind>, base: string, api: UrlApi)
    requires ParseKinds(kinds, base, api).Some?
    ensures var p := ParseKinds(kinds, base, api).value;
            && |p.variants| == |VariantLines(kinds)|
            && forall j :: 0 <= j < |p.variants| ==>
                 && ResolveEntry(VariantLines(kinds)[j].0, base, api) == Some(p.variants[j].url)
                 && p.variants[j].bandwidth == VariantLines(kinds)[j].1
    decreases |kinds|
  {
    if |kinds| > 0 {
      var init := kinds[..|kinds| - 1];
      var p := ParseKinds(init, base, api).value;
      assert ParseKinds(kinds, base, api) == Step(p, kinds[|kinds| - 1], base, api);
      ParseVariants(init, base, api);
      ParseBandwidth(init, base, api);
    }
  }

  /** A manifest's entry count: segments and variants together are as many
      as its content kinds. */
  lemma EntryCount(kinds: seq<LineKind>, base: string, api: UrlApi)
    requires ParseKinds(kinds, base, api).Some?
    ensures |ParseKinds(kinds, base, api).value.segments| + |ParseKinds(kinds, base, api).value.variants|
            == |ContentLines(kinds)|
  {
    ParseSegments(kinds, base, api);
    ParseVariants(kinds, base, api);
    ContentSplits(kinds);
  }
}

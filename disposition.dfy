/** `buildDisposition` of `src/app/api/download/route.ts`: the
    `Content-Disposition` header of a download, with a plain ASCII
    `filename` for old clients and a percent-encoded UTF-8 `filename*` for
    the rest (section 4.3 of RFC 6266, with the extended value of RFC 8187).
    Characters are Unicode scalar values; `charCodeAt(0)` of one is above
    0x7F exactly when the scalar value is, so the comparison is made on the
    scalar value. */
module Disposition {
  import opened Wrappers
  import opened Text
  import opened DownloadTarget

  const DispositionHead: string := "attachment; filename=\""
  const ExtendedHead: string := "\"; filename*=UTF-8''"

  /** `filename || 'lunatv'`. */
  function BaseName(filename: string): (r: string)
    ensures r != []
    ensures filename != [] ==> r == filename
    ensures filename == [] ==> r == DefaultFilename
  {
    if filename == [] then DefaultFilename else filename
  }

  predicate IsAscii(c: char) {
    c as int <= 0x7F
  }

  /** Every character of `Array.from(base)` kept when it is ASCII and
      replaced by `_` otherwise. */
  function MaskNonAscii(base: string): (r: string)
    ensures |r| == |base|
    ensures forall i :: 0 <= i < |base| ==> r[i] == if IsAscii(base[i]) then base[i] else '_'
  {
    seq(|base|, i requires 0 <= i < |base| => if IsAscii(base[i]) then base[i] else '_')
  }

  /** The ASCII fallback name, `|| 'lunatv'` when it comes out empty. */
  function AsciiFallback(base: string): (r: string)
    ensures r != []
    ensures forall i :: 0 <= i < |r| ==> IsAscii(r[i])
    ensures base != [] ==> |r| == |base|
    ensures forall i :: 0 <= i < |base| ==> (IsAscii(base[i]) <==> r[i] == base[i])
  {
    var masked := MaskNonAscii(base);
    if masked == [] then DefaultFilename else masked
  }

  /** A name that is already ASCII is its own fallback. */
  lemma AsciiFallbackKeepsAscii(base: string)
    requires base != []
    requires forall i :: 0 <= i < |base| ==> IsAscii(base[i])
    ensures AsciiFallback(base) == base
  {
    var r := AsciiFallback(base);
    assert forall i :: 0 <= i < |base| ==> r[i] == base[i];
  }

  /** Taking the fallback twice changes nothing more. */
  lemma AsciiFallbackIdempotent(base: string)
    ensures AsciiFallback(AsciiFallback(base)) == AsciiFallback(base)
  {
    AsciiFallbackKeepsAscii(AsciiFallback(base));
  }

  /** `extension.startsWith('.') ? extension : '.' + extension`. */
  function NormalizeExtension(extension: string): (r: string)
    ensures StartsWith(r, ".")
    ensures r == extension || r == "." + extension
    ensures StartsWith(extension, ".") ==> r == extension
  {
    if StartsWith(extension, ".") then extension else "." + extension
  }

  lemma NormalizeExtensionIdempotent(extension: string)
    ensures NormalizeExtension(NormalizeExtension(extension)) == NormalizeExtension(extension)
  {
  }

  /** `buildDisposition(filename, extension)`. */
  function BuildDisposition(filename: string, extension: string, encode: string -> string): (header: string)
    ensures StartsWith(header, DispositionHead)
    ensures EndsWith(header, NormalizeExtension(extension))
  {
    var base := BaseName(filename);
    var ext := NormalizeExtension(extension);
    DispositionHead + AsciiFallback(base) + ext + ExtendedHead + encode(base) + ext
  }

  /** The `filename` parameter as a reader of the header finds it: the text
      between the opening quote and the next quote. */
  function QuotedFilename(header: string): (r: Option<string>)
    ensures r.Some? ==> '"' !in r.value
  {
    if !StartsWith(header, DispositionHead) then None
    else
      var rest := header[|DispositionHead|..];
      match IndexOf(rest, '"')
      case None => None
      case Some(close) => Some(rest[..close])
  }

  /** The `filename*` parameter: what follows the closing quote and the
      `; filename*=UTF-8''` marker. */
  function ExtendedFilename(header: string): Option<string> {
    if !StartsWith(header, DispositionHead) then None
    else
      var rest := header[|DispositionHead|..];
      match IndexOf(rest, '"')
      case None => None
      case Some(close) =>
        var tail := rest[close..];
        if StartsWith(tail, ExtendedHead) then Some(tail[|ExtendedHead|..]) else None
  }

  /** A name without a double quote keeps none in its fallback. */
  lemma FallbackHasNoQuote(base: string)
    requires base != [] && '"' !in base
    ensures '"' !in AsciiFallback(base)
  {
    var r := AsciiFallback(base);
    forall i | 0 <= i < |r| ensures r[i] != '"' {
      assert r[i] == base[i] || r[i] == '_';
    }
  }

  /** The first `c` of `q + t` is the head of `t` when `q` has none. */
  lemma IndexOfAfter(q: string, t: string, c: char)
    requires c !in q && |t| > 0 && t[0] == c
    ensures IndexOf(q + t, c) == Some(|q|)
  {
    var s := q + t;
    assert s[|q|] == c;
    assert s[..|q|] == q;
  }

  /** Both parameters are read back from any header of the built shape
      whose quoted part has no quote of its own. */
  lemma ReadBack(fallback: string, ext: string, encoded: string)
    requires '"' !in fallback && '"' !in ext
    ensures var header := DispositionHead + fallback + ext + ExtendedHead + encoded + ext;
            && QuotedFilename(header) == Some(fallback + ext)
            && ExtendedFilename(header) == Some(encoded + ext)
  {
    var header := DispositionHead + fallback + ext + ExtendedHead + encoded + ext;
    var quoted := fallback + ext;
    var tail := ExtendedHead + encoded + ext;
    assert header == DispositionHead + (quoted + tail);
    var rest := header[|DispositionHead|..];
    assert rest == quoted + tail;
    IndexOfAfter(quoted, tail, '"');
    assert rest[..|quoted|] == quoted;
    assert rest[|quoted|..] == tail;
    assert tail[|ExtendedHead|..] == encoded + ext;
  }

  /** Reading the header back: for a name and an extension without a double
      quote, the `filename` parameter is the ASCII fallback and `filename*`
      is the encoded name, both carrying the dotted extension. */
  lemma DispositionRoundTrip(filename: string, extension: string, encode: string -> string)
    requires '"' !in filename && '"' !in extension
    ensures QuotedFilename(BuildDisposition(filename, extension, encode))
            == Some(AsciiFallback(BaseName(filename)) + NormalizeExtension(extension))
    ensures ExtendedFilename(BuildDisposition(filename, extension, encode))
            == Some(encode(BaseName(filename)) + NormalizeExtension(extension))
  {
    var base := BaseName(filename);
    FallbackHasNoQuote(base);
    ReadBack(AsciiFallback(base), NormalizeExtension(extension), encode(base));
  }

  /** A header whose quoted part holds a quote-free prefix and then a quote
      announces that prefix alone. */
  lemma QuotedPrefix(prefix: string, tail: string)
    requires '"' !in prefix && |tail| > 0 && tail[0] == '"'
    ensures QuotedFilename(DispositionHead + (prefix + tail)) == Some(prefix)
  {
    var header := DispositionHead + (prefix + tail);
    assert header[..|DispositionHead|] == DispositionHead;
    assert header[|DispositionHead|..] == prefix + tail;
    IndexOfAfter(prefix, tail, '"');
    assert (prefix + tail)[..|prefix|] == prefix;
  }

  /** The fallback of a name keeps its first double quote where it was, and
      no quote before it. */
  lemma FallbackFirstQuote(filename: string, k: nat)
    requires IndexOf(filename, '"') == Some(k)
    ensures k < |AsciiFallback(filename)| && AsciiFallback(filename)[k] == '"'
    ensures '"' !in AsciiFallback(filename)[..k]
  {
    var f := AsciiFallback(filename);
    assert IsAscii(filename[k]);
    forall i | 0 <= i < k ensures f[i] != '"' {
      assert filename[i] in filename[..k];
    }
  }

  /** A double quote in the name is not escaped: the `filename` parameter
      a reader finds stops at the name's first quote, so the fallback is cut
      short and the extension is lost. */
  lemma QuoteTruncatesFilename(filename: string, extension: string, encode: string -> string, k: nat)
    requires IndexOf(filename, '"') == Some(k)
    ensures QuotedFilename(BuildDisposition(filename, extension, encode)) == Some(AsciiFallback(filename)[..k])
    ensures k < |AsciiFallback(BaseName(filename)) + NormalizeExtension(extension)|
  {
    var f := AsciiFallback(filename);
    var ext := NormalizeExtension(extension);
    assert BaseName(filename) == filename;
    FallbackFirstQuote(filename, k);
    HeaderAt(f, ext, encode(filename), k);
    QuotedPrefix(f[..k], f[k..] + ext + ExtendedHead + encode(filename) + ext);
  }

  /** The built header, cut after `k` characters of the fallback. */
  lemma HeaderAt(fallback: string, ext: string, encoded: string, k: nat)
    requires k <= |fallback|
    ensures DispositionHead + fallback + ext + ExtendedHead + encoded + ext
            == DispositionHead + (fallback[..k] + (fallback[k..] + ext + ExtendedHead + encoded + ext))
  {
    assert fallback == fallback[..k] + fallback[k..];
  }

  /** For instance, the name `a"b` is announced as `a`. */
  lemma QuotedNameExample(encode: string -> string)
    ensures QuotedFilename(BuildDisposition("a\"b", ".ts", encode)) == Some("a")
  {
    assert IndexOf("a\"b", '"') == Some(1);
    QuoteTruncatesFilename("a\"b", ".ts", encode, 1);
    assert AsciiFallback("a\"b")[..1] == "a";
  }

  /** The extension the saved file gets: a playlist is saved as the
      transport stream its segments make up, and a path without an
      extension as `.bin`. */
  function SavedExtension(extension: string): (r: string)
    ensures r != []
    ensures extension == ".m3u8" ==> r == ".ts"
    ensures extension != ".m3u8" && extension != [] ==> r == extension
    ensures extension == [] ==> r == ".bin"
  {
    if extension == ".m3u8" then ".ts"
    else if extension == [] then ".bin"
    else extension
  }
}

/** The platform services the route handlers call but whose behaviour is not
    modelled: the WHATWG URL parser and the percent-coding pair
    `encodeURIComponent` / `decodeURIComponent`. They are passed around as a
    record of functions, so every property proved below holds for any parser
    and any coder. */
module Web {
  import opened Wrappers

  /** The fields of a parsed `URL` the handlers read: `href` (also what
      `toString()` returns), `protocol` (with its colon, as in "https:"),
      `pathname`, and the `searchParams` pairs in order. */
  datatype Url = Url(href: string, protocol: string, pathname: string, query: seq<(string, string)>)

  datatype UrlApi = UrlApi(
    parse: string -> Option<Url>,                    // `new URL(raw)`; None where it throws
    parseRelative: (string, string) -> Option<Url>,  // `new URL(raw, base)`; None where it throws
    decode: string -> Option<string>,                // `decodeURIComponent`; None where it throws
    encode: string -> string)                        // `encodeURIComponent`

  /** `ALLOWED_PROTOCOLS` of both route handlers. */
  const AllowedProtocols: seq<string> := ["http:", "https:"]

  predicate AllowedProtocol(protocol: string) {
    protocol in AllowedProtocols
  }

  /** `Response.ok`. */
  predicate IsOk(status: int) {
    200 <= status <= 299
  }

  /** `URLSearchParams.get`: the value of the first pair with that name. */
  function GetParam(query: seq<(string, string)>, name: string): (r: Option<string>)
    ensures r.Some? ==> exists k :: 0 <= k < |query| && query[k] == (name, r.value)
                                  && forall j :: 0 <= j < k ==> query[j].0 != name
    ensures r.None? ==> forall k :: 0 <= k < |query| ==> query[k].0 != name
    decreases |query|
  {
    if |query| == 0 then None
    else if query[0].0 == name then Some(query[0].1)
    else
      var r := GetParam(query[1..], name);
      assert r.Some? ==> exists k :: 0 <= k < |query[1..]| && query[1..][k] == (name, r.value)
                                   && forall j :: 0 <= j < k ==> query[1..][j].0 != name;
      assert r.Some? ==> exists k :: 1 <= k < |query| && query[k] == (name, r.value)
                                   && forall j :: 0 <= j < k ==> query[j].0 != name by {
        if r.Some? {
          var k :| 0 <= k < |query[1..]| && query[1..][k] == (name, r.value)
                   && forall j :: 0 <= j < k ==> query[1..][j].0 != name;
          assert query[k + 1] == (name, r.value);
          forall j | 0 <= j < k + 1 ensures query[j].0 != name {
            if j > 0 { assert query[j] == query[1..][j - 1]; }
          }
        }
      }
      r
  }
}

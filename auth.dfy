/** `src/lib/auth.ts`: reading the `auth` cookie on the server and in the
    browser, and the switch that turns authentication off. Environment
    variables and `window` are parameters (an unset variable is `None`),
    `decodeURIComponent` and `JSON.parse` are functions that give `None`
    where they throw, and `Date.now()` is the `now` parameter. */
module Auth {
  import opened Wrappers
  import opened Text

  /** `a || b || ...` over environment variables: the first one that is set
      to a non-empty value. */
  function FirstSet(candidates: seq<Option<string>>): (r: Option<string>)
    ensures r.Some? ==> r.value != ""
    ensures r.Some? ==>
              exists k :: (0 <= k < |candidates| && candidates[k] == r &&
                           forall j :: 0 <= j < k ==> candidates[j].None? || candidates[j].value == "")
    ensures r.None? <==> forall k :: 0 <= k < |candidates| ==> candidates[k].None? || candidates[k].value == ""
    decreases |candidates|
  {
    if |candidates| == 0 then None
    else if candidates[0].Some? && candidates[0].value != "" then candidates[0]
    else
      var r := FirstSet(candidates[1..]);
      assert forall k :: 1 <= k < |candidates| ==> candidates[1..][k - 1] == candidates[k];
      r
  }

  /** `AUTH_DISABLED`: `NEXT_PUBLIC_AUTH_DISABLED || AUTH_DISABLED || ''`,
      lower-cased, is `true` or `1`. */
  function AuthDisabled(publicFlag: Option<string>, flag: Option<string>): (disabled: bool)
  {
    var setting := Lower(FirstSet([publicFlag, flag]).GetOr(""));
    setting == "true" || setting == "1"
  }

  /** The switch reads the first variable that is set, in any letter case,
      and accepts exactly `true` and `1`. */
  lemma AuthDisabledIff(publicFlag: Option<string>, flag: Option<string>)
    ensures var chosen := FirstSet([publicFlag, flag]).GetOr("");
            AuthDisabled(publicFlag, flag) <==> Lower(chosen) == "true" || chosen == "1"
    ensures publicFlag.Some? && publicFlag.value != "" ==> AuthDisabled(publicFlag, flag) == AuthDisabled(publicFlag, None)
    ensures publicFlag.None? ==> AuthDisabled(publicFlag, flag) == AuthDisabled(flag, None)
  {
    var chosen := FirstSet([publicFlag, flag]).GetOr("");
    if Lower(chosen) == "1" {
      assert |chosen| == 1 && AsciiLower(chosen[0]) == '1';
      assert chosen == "1";
    }
  }

  /** The owner name used when no setting names one. */
  const DefaultOwner: string := "owner"

  /** `getServerOwnerUsername`: `USERNAME || 'owner'`. */
  function ServerOwner(username: Option<string>): (owner: string)
    ensures owner != ""
    ensures username.Some? && username.value != "" ==> owner == username.value
    ensures username.None? || username.value == "" ==> owner == DefaultOwner
  {
    FirstSet([username]).GetOr(DefaultOwner)
  }

  /** `getClientOwnerUsername` in a browser: `RUNTIME_CONFIG.OWNER_USERNAME ||
      RUNTIME_CONFIG.SITE_OWNER || 'owner'`. */
  function ClientOwner(ownerUsername: Option<string>, siteOwner: Option<string>): (owner: string)
    ensures owner != ""
    ensures ownerUsername.Some? && ownerUsername.value != "" ==> owner == ownerUsername.value
    ensures (ownerUsername.None? || ownerUsername.value == "") && siteOwner.Some? && siteOwner.value != ""
            ==> owner == siteOwner.value
    ensures (ownerUsername.None? || ownerUsername.value == "") && (siteOwner.None? || siteOwner.value == "")
            ==> owner == DefaultOwner
  {
    assert [ownerUsername, siteOwner][1..] == [siteOwner];
    assert FirstSet([siteOwner]) == if siteOwner.Some? && siteOwner.value != "" then siteOwner else None;
    FirstSet([ownerUsername, siteOwner]).GetOr(DefaultOwner)
  }

  /** What the readers return: `buildPublicAuthInfo`'s object (role `owner`)
      or whatever `JSON.parse` made of the cookie. */
  datatype AuthInfo<J> = Public(username: string, timestamp: int) | Stored(data: J)

  /** The branch both readers take when there is no usable cookie. */
  function Fallback<J>(disabled: bool, owner: string, now: int): (r: Option<AuthInfo<J>>)
    ensures r.Some? <==> disabled
    ensures r.Some? ==> r.value == Public(owner, now)
  {
    if disabled then Some(Public(owner, now)) else None
  }

  /** `getAuthInfoFromCookie`: the cookie value is decoded once and parsed as
      JSON. */
  function ServerAuthInfo<J>(authCookie: Option<string>, disabled: bool, owner: string, now: int,
                             decode: string -> Option<string>, parseJson: string -> Option<J>)
    : (r: Option<AuthInfo<J>>)
    ensures disabled ==> r.Some?
    ensures r.Some? && r.value.Public? ==> disabled && r.value == Public(owner, now)
    ensures r.Some? && r.value.Stored? <==>
              authCookie.Some? && decode(authCookie.value).Some? && parseJson(decode(authCookie.value).value).Some?
    ensures r.Some? && r.value.Stored? ==> Some(r.value.data) == parseJson(decode(authCookie.value).value)
  {
    match authCookie
    case None => Fallback(disabled, owner, now)
    case Some(value) =>
      match decode(value)
      case None => Fallback(disabled, owner, now)
      case Some(decoded) =>
        match parseJson(decoded)
        case None => Fallback(disabled, owner, now)
        case Some(data) => Some(Stored(data))
  }

  /** The callback of the `reduce` over `document.cookie.split(';')`: a
      trimmed piece with an `=` after at least one character, split at the
      first `=`, kept when key and value are both non-empty. */
  function CookieEntry(piece: string): (r: Option<(string, string)>)
    ensures r.Some? ==> && r.value.0 != "" && r.value.1 != "" && '=' !in r.value.0
                        && Trim(piece) == r.value.0 + "=" + r.value.1
  {
    var trimmed := Trim(piece);
    match IndexOf(trimmed, '=')
    case None => None
    case Some(eq) =>
      if eq > 0 && eq + 1 < |trimmed| then
        assert trimmed == trimmed[..eq] + "=" + trimmed[eq + 1..];
        Some((trimmed[..eq], trimmed[eq + 1..]))
      else None
  }

  /** Every well-formed `key=value` pair is read back as written. */
  lemma CookieEntryRoundTrip(key: string, value: string)
    requires key != "" && value != "" && '=' !in key
    requires !IsSpace(key[0]) && !IsSpace(value[|value| - 1])
    ensures CookieEntry(key + "=" + value) == Some((key, value))
  {
    var piece := key + "=" + value;
    assert piece[0] == key[0] && piece[|piece| - 1] == value[|value| - 1];
    TrimUnchanged(piece);
    assert piece[|key|] == '=' && piece[..|key|] == key && piece[|key| + 1..] == value;
  }

  /** `acc[key] = value` on a plain object: the key `__proto__` goes to the
      prototype setter, which ignores a string, so it never becomes an
      entry. */
  const ProtoKey: string := "__proto__"

  type Entry = Option<(string, string)>

  /** The entry each piece of `document.cookie.split(';')` gives. */
  function Entries(pieces: seq<string>): (r: seq<Entry>)
    ensures |r| == |pieces|
    ensures forall i :: 0 <= i < |pieces| ==> r[i] == CookieEntry(pieces[i])
  {
    seq(|pieces|, i requires 0 <= i < |pieces| => CookieEntry(pieces[i]))
  }

  /** The object the `reduce` builds from the entries, as a fold. */
  function Jar(entries: seq<Entry>): (jar: map<string, string>)
    ensures ProtoKey !in jar
    decreases |entries|
  {
    if |entries| == 0 then map[]
    else
      var jar := Jar(entries[..|entries| - 1]);
      match entries[|entries| - 1]
      case None => jar
      case Some(entry) => if entry.0 == ProtoKey then jar else jar[entry.0 := entry.1]
  }

  /** The cookies of a `document.cookie` string. */
  function CookieJar(documentCookie: string): map<string, string> {
    Jar(Entries(Split(documentCookie, ';')))
  }

  /** The `reduce` itself, with its accumulator. */
  method ParseCookies(documentCookie: string) returns (jar: map<string, string>)
    ensures jar == CookieJar(documentCookie)
  {
    var pieces := Split(documentCookie, ';');
    ghost var entries := Entries(pieces);
    jar := map[];
    var i := 0;
    while i < |pieces|
      invariant 0 <= i <= |pieces|
      invariant jar == Jar(entries[..i])
    {
      var entry := CookieEntry(pieces[i]);
      assert entry == entries[i];
      JarNext(entries, i);
      if entry.Some? {
        var key := entry.value.0;
        var value := entry.value.1;
        if key != ProtoKey {
          jar := jar[key := value];
        }
      }
      i := i + 1;
    }
    assert entries[..|pieces|] == entries;
  }

  lemma JarNext(entries: seq<Entry>, i: nat)
    requires i < |entries|
    ensures Jar(entries[..i + 1]) == match entries[i]
                                     case None => Jar(entries[..i])
                                     case Some(entry) =>
                                       if entry.0 == ProtoKey then Jar(entries[..i])
                                       else Jar(entries[..i])[entry.0 := entry.1]
  {
    assert entries[..i + 1][..i] == entries[..i];
  }

  /** Whether an entry is one for `key`. */
  predicate Carries(entry: Entry, key: string) {
    entry.Some? && entry.value.0 == key
  }

  /** A key is in the jar exactly when some entry carries it. */
  lemma {:induction false} JarHasKey(entries: seq<Entry>, key: string)
    ensures key in Jar(entries) <==>
              key != ProtoKey && exists k :: 0 <= k < |entries| && Carries(entries[k], key)
    decreases |entries|
  {
    if |entries| > 0 {
      var n := |entries| - 1;
      var init := entries[..n];
      JarHasKey(init, key);
      assert key in Jar(entries) <==> key in Jar(init) || (key != ProtoKey && Carries(entries[n], key));
      if exists k :: 0 <= k < |entries| && Carries(entries[k], key) {
        var k :| 0 <= k < |entries| && Carries(entries[k], key);
        if k < n {
          assert init[k] == entries[k];
        }
      }
      if exists k :: 0 <= k < n && Carries(init[k], key) {
        var k :| 0 <= k < n && Carries(init[k], key);
        assert init[k] == entries[k];
      }
    }
  }

  /** When a key appears several times, the last entry carrying it wins. */
  lemma {:induction false} JarLastWins(entries: seq<Entry>, k: nat, key: string, value: string)
    requires k < |entries| && key != ProtoKey
    requires entries[k] == Some((key, value))
    requires forall j :: k < j < |entries| ==> !Carries(entries[j], key)
    ensures key in Jar(entries) && Jar(entries)[key] == value
    decreases |entries|
  {
    var n := |entries| - 1;
    var init := entries[..n];
    if k < n {
      assert forall j :: k < j < n ==> init[j] == entries[j];
      JarLastWins(init, k, key, value);
      assert !Carries(entries[n], key);
    }
  }

  /** The double decode: decode once, and once more when a `%` is left. */
  function DoubleDecode(raw: string, decode: string -> Option<string>): (r: Option<string>)
    ensures decode(raw).None? ==> r.None?
    ensures decode(raw).Some? && '%' !in decode(raw).value ==> r == decode(raw)
    ensures decode(raw).Some? && '%' in decode(raw).value ==> r == decode(decode(raw).value)
  {
    match decode(raw)
    case None => None
    case Some(once) => if '%' in once then decode(once) else Some(once)
  }

  /** What the two rounds recover: text encoded twice, when its single
      encoding shows a `%`, and text encoded once, when it has no `%` of its
      own. */
  lemma DoubleDecodeRecovers(text: string, encode: string -> string, decode: string -> Option<string>)
    requires decode(encode(text)) == Some(text)
    requires decode(encode(encode(text))) == Some(encode(text))
    ensures '%' in encode(text) ==> DoubleDecode(encode(encode(text)), decode) == Some(text)
    ensures '%' !in text ==> DoubleDecode(encode(text), decode) == Some(text)
  {
  }

  /** Text encoded once that has a `%` of its own is decoded a second time,
      which is not what was stored. */
  lemma DoubleDecodeOvershoots(text: string, encode: string -> string, decode: string -> Option<string>)
    requires decode(encode(text)) == Some(text)
    requires '%' in text
    ensures DoubleDecode(encode(text), decode) == decode(text)
  {
  }

  /** `getAuthInfoFromBrowserCookie`: `null` without a `window`; otherwise the
      `auth` entry of the cookie jar, double-decoded and parsed as JSON. */
  function BrowserAuthInfo<J>(hasWindow: bool, documentCookie: string, disabled: bool, owner: string, now: int,
                              decode: string -> Option<string>, parseJson: string -> Option<J>)
    : (r: Option<AuthInfo<J>>)
    ensures !hasWindow ==> r.None?
    ensures hasWindow && disabled ==> r.Some?
    ensures r.Some? && r.value.Public? ==> disabled && r.value == Public(owner, now)
    ensures r.Some? && r.value.Stored? <==>
              && hasWindow && "auth" in CookieJar(documentCookie)
              && DoubleDecode(CookieJar(documentCookie)["auth"], decode).Some?
              && parseJson(DoubleDecode(CookieJar(documentCookie)["auth"], decode).value).Some?
    ensures r.Some? && r.value.Stored? ==>
              && "auth" in CookieJar(documentCookie)
              && DoubleDecode(CookieJar(documentCookie)["auth"], decode).Some?
              && Some(r.value.data) == parseJson(DoubleDecode(CookieJar(documentCookie)["auth"], decode).value)
  {
    if !hasWindow then None
    else
      var cookies := CookieJar(documentCookie);
      if "auth" !in cookies then Fallback(disabled, owner, now)
      else match DoubleDecode(cookies["auth"], decode)
        case None => Fallback(disabled, owner, now)
        case Some(decoded) =>
          match parseJson(decoded)
          case None => Fallback(disabled, owner, now)
          case Some(data) => Some(Stored(data))
  }
}

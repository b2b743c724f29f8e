/** The API-key gate of `src/lib/auth.ts` (`requireApiKey`): the configured key and
    the two request headers it reads arrive as values. */
module Auth {
  import opened Text

  /** The headers the gate reads; None stands for a header the request does not carry
      (`headers.get` returns `null`), `Some("")` for one that is present but empty. */
  datatype Headers = Headers(xApiKey: Option<string>, authorization: Option<string>)

  /** `null` (go on) or the JSON error response the route returns at once. */
  datatype Decision = Authorized | Rejected(status: nat, error: string)

  const Bearer := "Bearer "

  /** `s.replace(k, "")` with a string pattern: only the first occurrence is removed. */
  function RemoveFirst(s: string, k: string): (r: string)
    requires |k| > 0
    ensures FindFrom(s, k, 0).None? ==> r == s
    ensures FindFrom(s, k, 0).Some? ==>
              |r| == |s| - |k| && s == r[..FindFrom(s, k, 0).value] + k + r[FindFrom(s, k, 0).value..]
  {
    match FindFrom(s, k, 0)
    case None => s
    case Some(i) =>
      var r := s[..i] + s[i + |k|..];
      assert r[..i] == s[..i] && r[i..] == s[i + |k|..];
      Rejoin(s, k, i);
      r
  }

  /** `x-api-key ?? authorization?.replace("Bearer ", "")`: `??` falls through only
      on an absent header, so an empty `x-api-key` still wins. */
  function Provided(h: Headers): Option<string> {
    if h.xApiKey.Some? then h.xApiKey
    else if h.authorization.Some? then Some(RemoveFirst(h.authorization.value, Bearer))
    else None
  }

  /** `requireApiKey`: 500 when no key is configured, 401 unless the provided value is
      non-empty and equal to the key, otherwise authorized. */
  function RequireApiKey(apiKey: Option<string>, h: Headers): (d: Decision)
    ensures apiKey.None? || apiKey.value == [] ==> d == Rejected(500, "API key not configured")
    ensures apiKey.Some? && apiKey.value != [] ==> (d == Authorized <==> Provided(h) == apiKey)
    ensures apiKey.Some? && apiKey.value != [] && d.Rejected? ==> d == Rejected(401, "Unauthorized")
  {
    if apiKey.None? || apiKey.value == [] then Rejected(500, "API key not configured")
    else
      var provided := Provided(h);
      if provided.None? || provided.value == [] || provided.value != apiKey.value then Rejected(401, "Unauthorized")
      else Authorized
  }

  // ---------------------------------------------------------------------------
  // Properties

  /** Without a configured key every request is refused with 500, whatever it sends. */
  lemma UnconfiguredRefusesAll(apiKey: Option<string>, h1: Headers, h2: Headers)
    requires apiKey.None? || apiKey == Some("")
    ensures RequireApiKey(apiKey, h1) == RequireApiKey(apiKey, h2)
    ensures RequireApiKey(apiKey, h1).Rejected? && RequireApiKey(apiKey, h1).status == 500
  { }

  /** Whenever `x-api-key` is present, `authorization` plays no part. */
  lemma ApiKeyHeaderWins(apiKey: Option<string>, h: Headers, other: Option<string>)
    requires h.xApiKey.Some?
    ensures RequireApiKey(apiKey, h) == RequireApiKey(apiKey, Headers(h.xApiKey, other))
  { }

  /** An empty `x-api-key` header is refused even beside a valid bearer token. */
  lemma EmptyApiKeyHeaderRefused(key: string)
    requires key != []
    ensures RequireApiKey(Some(key), Headers(Some(""), Some(Bearer + key))) == Rejected(401, "Unauthorized")
  { }

  /** A leading "Bearer " is removed from the token. */
  lemma RemoveLeadingBearer(t: string)
    ensures RemoveFirst(Bearer + t, Bearer) == t
  {
    var s := Bearer + t;
    assert At(s, Bearer, 0) by { assert s[..|Bearer|] == Bearer; }
    assert FindFrom(s, Bearer, 0) == Some(0);
    assert s[|Bearer|..] == t;
  }

  /** `Authorization: Bearer <key>` without `x-api-key` is authorized. */
  lemma BearerTokenAccepted(key: string)
    requires key != []
    ensures RequireApiKey(Some(key), Headers(None, Some(Bearer + key))) == Authorized
  {
    RemoveLeadingBearer(key);
  }

  /** Only the first "Bearer " is removed: a doubled prefix is refused. */
  lemma DoubledBearerRefused(key: string)
    requires key != []
    ensures RequireApiKey(Some(key), Headers(None, Some(Bearer + (Bearer + key)))) == Rejected(401, "Unauthorized")
  {
    RemoveLeadingBearer(Bearer + key);
    assert |Bearer + key| != |key|;
  }

  /** A bare key in `authorization` is accepted too, when it holds no "Bearer ". */
  lemma BareTokenAccepted(key: string)
    requires key != [] && FindFrom(key, Bearer, 0).None?
    ensures RequireApiKey(Some(key), Headers(None, Some(key))) == Authorized
  { }
}

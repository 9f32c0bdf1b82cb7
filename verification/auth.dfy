/** The router's authentication gate (`authMiddleware`). Token
    verification is a parameter: the model never looks inside a token. */
module Auth {

  import opened Outcomes
  import opened JsText

  /** The verified token payload the handlers read: `id` and `username`. */
  datatype Claims = Claims(id: string, username: Option<string>)

  const Prefix: string := "Bearer "

  predicate OneLine(s: string) {
    forall k :: 0 <= k < |s| ==> !IsLineTerminator(s[k])
  }

  /** Matching `^Bearer (.+)$` without flags: the prefix, then at least one
      character, none of them a line terminator (`.` does not match those
      and `$` only matches at the very end). Yields the captured token. */
  function BearerToken(header: string): (r: Option<string>)
    ensures r.Some? <==> |header| > |Prefix| && header[..|Prefix|] == Prefix
                         && OneLine(header[|Prefix|..])
    ensures r.Some? ==> header == Prefix + r.value
  {
    if |header| > |Prefix| && header[..|Prefix|] == Prefix && OneLine(header[|Prefix|..]) then
      Some(header[|Prefix|..])
    else
      None
  }

  /** The token is recovered from every header built from it. */
  lemma BearerTokenRoundTrip(token: string)
    requires |token| > 0 && OneLine(token)
    ensures BearerToken(Prefix + token) == Some(token)
  {
    var h := Prefix + token;
    assert h[..|Prefix|] == Prefix && h[|Prefix|..] == token;
  }

  /** The gate: the header is checked for presence (an empty header counts
      as absent), then for shape, then `verify` is asked about the token.
      Every failure is a 401. */
  function Authenticate(header: Option<string>, verify: string -> Option<Claims>): (r: Result<Claims>)
    ensures (header.None? || header == Some("")) ==> r == Fail(MissingAuthorization)
    ensures (header.Some? && header.value != "" && BearerToken(header.value).None?)
              ==> r == Fail(InvalidTokenFormat)
    ensures (header.Some? && BearerToken(header.value).Some?
             && verify(BearerToken(header.value).value).None?)
              ==> r == Fail(InvalidToken)
    ensures r.Ok? <==> header.Some? && BearerToken(header.value).Some?
                       && verify(BearerToken(header.value).value).Some?
    ensures r.Ok? ==> Some(r.value) == verify(BearerToken(header.value).value)
    ensures r.Fail? ==> StatusOf(r.failure) == Unauthorized
  {
    match header
    case None => Fail(MissingAuthorization)
    case Some(h) =>
      if h == "" then Fail(MissingAuthorization)
      else
        match BearerToken(h)
        case None => Fail(InvalidTokenFormat)
        case Some(token) =>
          match verify(token)
          case None => Fail(InvalidToken)
          case Some(claims) => Ok(claims)
  }
}

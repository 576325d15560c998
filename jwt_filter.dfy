/** The JWT authentication filter: find a token in the Authorization header
    (a bearer token in the style of section 2.1 of RFC 6750, the scheme
    matched in any letter case) or else in the `accessToken` cookie, validate
    it, and on success put the token's principal in the security context;
    the filter chain always continues. */
module JwtFilter {
  import opened Wrappers
  import opened Strings
  import opened Cookies

  const BearerPrefix: string := "bearer "
  const AccessTokenCookie: string := "accessToken"

  /** The claims a validated token carries; every getter may give null. */
  datatype Claims = Claims(subject: Option<string>, username: Option<string>,
                           email: Option<string>, tokenType: Option<string>)

  datatype Principal = Principal(userId: Option<string>, username: Option<string>, email: Option<string>)

  /** `toLowerCase().startsWith("bearer ")`. Only ASCII letters lower-case to
      the letters of "bearer ", so lowering the first seven characters as
      ASCII decides it. */
  predicate IsBearer(header: string) {
    |header| >= |BearerPrefix| && LowerAsciiString(header[..|BearerPrefix|]) == BearerPrefix
  }

  /** extractToken: the header after its first seven characters when it is a
      bearer header, else the first `accessToken` cookie, else null. */
  function RequestToken(header: Option<string>, cookies: Option<seq<RequestCookie>>): Option<string> {
    if header.Some? && IsBearer(header.value) then Some(header.value[|BearerPrefix|..])
    else CookieValue(cookies, AccessTokenCookie)
  }

  /** extractToken with its cookie loop. */
  method ExtractToken(header: Option<string>, cookies: Option<seq<RequestCookie>>) returns (token: Option<string>)
    ensures token == RequestToken(header, cookies)
  {
    if header.Some? && IsBearer(header.value) {
      return Some(header.value[|BearerPrefix|..]);
    }
    token := FindCookie(cookies, AccessTokenCookie);
  }

  /** The authentication after the filter: a token that validates replaces it
      with the token's principal; no token, or one whose validation throws,
      leaves it as it was. */
  function AuthenticationAfter(prior: Option<Principal>, token: Option<string>,
                               validate: string -> Outcome<Claims>): Option<Principal>
  {
    match token
    case None => prior
    case Some(t) =>
      match validate(t)
      case Threw(_) => prior
      case Returned(c) => Some(Principal(c.subject, c.username, c.email))
  }

  /** The per-request state the filter touches: the security context's
      authentication and the number of times the chain was continued. */
  class RequestContext {
    var authentication: Option<Principal>
    var chainCalls: nat

    constructor ()
      ensures authentication == None && chainCalls == 0
    {
      authentication := None;
      chainCalls := 0;
    }
  }

  /** doFilterInternal. `validate` is the token provider's signature and
      expiry check. */
  method DoFilter(ctx: RequestContext, header: Option<string>, cookies: Option<seq<RequestCookie>>,
                  validate: string -> Outcome<Claims>)
    modifies ctx
    ensures ctx.authentication == AuthenticationAfter(old(ctx.authentication), RequestToken(header, cookies), validate)
    ensures ctx.chainCalls == old(ctx.chainCalls) + 1
  {
    var token := ExtractToken(header, cookies);
    if token.Some? {
      var claims := validate(token.value);
      if claims.Returned? {
        ctx.authentication := Some(Principal(claims.value.subject, claims.value.username, claims.value.email));
      }
    }
    ctx.chainCalls := ctx.chainCalls + 1;
  }

  /** A bearer header, in any letter case, gives exactly the text after the
      scheme and its space, and cookies are then not consulted. */
  lemma BearerHeaderWins(scheme: string, rest: string,
                         cookies1: Option<seq<RequestCookie>>, cookies2: Option<seq<RequestCookie>>)
    requires LowerAsciiString(scheme) == BearerPrefix
    ensures RequestToken(Some(scheme + rest), cookies1) == RequestToken(Some(scheme + rest), cookies2) == Some(rest)
  {
    var h := scheme + rest;
    assert h[..|BearerPrefix|] == scheme;
    assert h[|BearerPrefix|..] == rest;
  }

  /** Without a bearer header the token is the first `accessToken` cookie,
      and with neither there is no token. */
  lemma CookieFallback(header: Option<string>, before: seq<RequestCookie>, value: string, after: seq<RequestCookie>)
    requires header.None? || !IsBearer(header.value)
    requires forall j :: 0 <= j < |before| ==> before[j].name != AccessTokenCookie
    ensures RequestToken(header, Some(before + [RequestCookie(AccessTokenCookie, value)] + after)) == Some(value)
    ensures RequestToken(header, Some(before)) == None
    ensures RequestToken(header, None) == None
  {
    FirstCookieWins(before, RequestCookie(AccessTokenCookie, value), after);
  }

  /** A header with another scheme, such as "Basic", is ignored. */
  lemma OtherSchemeIgnored(rest: string, cookies: Option<seq<RequestCookie>>)
    ensures RequestToken(Some("Basic " + rest), cookies) == CookieValue(cookies, AccessTokenCookie)
  {
    var h := "Basic " + rest;
    if |h| >= |BearerPrefix| {
      assert LowerAsciiString(h[..|BearerPrefix|])[1] == 'a' != BearerPrefix[1];
    }
  }

  /** The filter only ever sets the authentication from a validated token:
      if it changed, a token was found and validated to these claims. */
  lemma AuthenticationComesFromValidToken(prior: Option<Principal>, token: Option<string>,
                                          validate: string -> Outcome<Claims>)
    ensures var after := AuthenticationAfter(prior, token, validate);
            after != prior ==>
              && token.Some? && validate(token.value).Returned?
              && after == Some(Principal(validate(token.value).value.subject,
                                         validate(token.value).value.username,
                                         validate(token.value).value.email))
    ensures token.None? || validate(token.value).Threw? ==> AuthenticationAfter(prior, token, validate) == prior
  {
  }

  /** The token type is not checked: a refresh token that validates
      authenticates the request just as an access token does. */
  lemma RefreshTokenAuthenticates(prior: Option<Principal>, token: string, validate: string -> Outcome<Claims>)
    requires validate(token).Returned? && validate(token).value.tokenType == Some("refresh")
    ensures AuthenticationAfter(prior, Some(token), validate).Some?
  {
  }
}

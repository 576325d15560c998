/** POST /api/auth/refresh: take the refresh token from the request body or
    else from the `refreshToken` cookie, check it, issue a new access and
    refresh token, and set both as cookies on the response. */
module AuthRefresh {
  import opened Wrappers
  import opened Cookies

  const RefreshTokenName: string := "refreshToken"
  const AccessTokenName: string := "accessToken"
  const InvalidRefreshMessage: string := "Invalid or expired refresh token"
  /** Four hours and seven days, in seconds. */
  const AccessCookieMaxAge: int := 4 * 60 * 60
  const RefreshCookieMaxAge: int := 7 * 24 * 60 * 60
  const CookiePath: string := "/"
  const CookieDomain: string := "localhost"
  /** The token lifetimes when none is configured, in milliseconds. */
  const DefaultAccessExpirationMs: int := 14400000
  const DefaultRefreshExpirationMs: int := 604800000

  datatype ResponseCookie = ResponseCookie(name: string, value: string, maxAge: int,
                                           httpOnly: bool, secure: bool, path: string, domain: string)

  datatype TokenResponse = TokenResponse(accessToken: string, refreshToken: string, expiresIn: int)

  /** createCookie. */
  function CreateCookie(name: string, value: string, maxAge: int): ResponseCookie {
    ResponseCookie(name, value, maxAge, true, false, CookiePath, CookieDomain)
  }

  predicate IsIssuedCookie(c: ResponseCookie) {
    c.httpOnly && !c.secure && c.path == CookiePath && c.domain == CookieDomain
  }

  /** Java's `long / 1000`, which rounds toward zero (Dafny's `/` rounds down
      for negative numbers). */
  function MillisToSeconds(ms: int): int {
    if ms >= 0 then ms / 1000 else -((-ms) / 1000)
  }

  /** The division truncates: the remainder has the sign of the dividend and
      is smaller than a second. */
  lemma MillisToSecondsTruncates(ms: int)
    ensures var s := MillisToSeconds(ms);
            && (ms >= 0 ==> 0 <= ms - 1000 * s < 1000)
            && (ms < 0 ==> -1000 < ms - 1000 * s <= 0)
    ensures MillisToSeconds(-ms) == -MillisToSeconds(ms)
  {
  }

  /** With the default lifetimes the cookies expire with their tokens: four
      hours and seven days. */
  lemma DefaultLifetimesAgree()
    ensures MillisToSeconds(DefaultAccessExpirationMs) == AccessCookieMaxAge == 14400
    ensures MillisToSeconds(DefaultRefreshExpirationMs) == RefreshCookieMaxAge == 604800
  {
  }

  /** The token the endpoint checks: the body's "refreshToken" entry when the
      body has that key (even when its value is null), else the first
      `refreshToken` cookie. */
  function PresentedToken(body: Option<map<string, Option<string>>>, cookies: Option<seq<RequestCookie>>): Option<string> {
    if body.Some? && RefreshTokenName in body.value then body.value[RefreshTokenName]
    else CookieValue(cookies, RefreshTokenName)
  }

  /** The endpoint's outcome and the cookies it adds. `isValidRefresh` is the
      token provider's check that the token validates and has type
      "refresh"; `issueAccess` and `issueRefresh` stand for reading its claims
      and signing new tokens from them; `accessExpirationMs` is the configured
      access-token lifetime. */
  function RefreshOf(body: Option<map<string, Option<string>>>, cookies: Option<seq<RequestCookie>>,
                     isValidRefresh: string -> bool, issueAccess: string -> string,
                     issueRefresh: string -> string, accessExpirationMs: int)
    : (Outcome<TokenResponse>, seq<ResponseCookie>)
  {
    var token := PresentedToken(body, cookies);
    if token.None? || !isValidRefresh(token.value) then
      (Threw(JavaException(InvalidToken, InvalidRefreshMessage)), [])
    else
      var access := issueAccess(token.value);
      var refresh := issueRefresh(token.value);
      (Returned(TokenResponse(access, refresh, MillisToSeconds(accessExpirationMs))),
       [CreateCookie(AccessTokenName, access, AccessCookieMaxAge),
        CreateCookie(RefreshTokenName, refresh, RefreshCookieMaxAge)])
  }

  /** The servlet response, as far as the endpoint changes it. */
  class ServletResponse {
    var cookies: seq<ResponseCookie>

    constructor ()
      ensures cookies == []
    {
      cookies := [];
    }

    method AddCookie(c: ResponseCookie)
      modifies this
      ensures cookies == old(cookies) + [c]
    {
      cookies := cookies + [c];
    }
  }

  /** refresh, with its cookie loop. */
  method Refresh(response: ServletResponse, body: Option<map<string, Option<string>>>,
                 cookies: Option<seq<RequestCookie>>, isValidRefresh: string -> bool,
                 issueAccess: string -> string, issueRefresh: string -> string, accessExpirationMs: int)
    returns (out: Outcome<TokenResponse>)
    modifies response
    ensures var (o, added) := RefreshOf(body, cookies, isValidRefresh, issueAccess, issueRefresh, accessExpirationMs);
            out == o && response.cookies == old(response.cookies) + added
  {
    var refreshToken: Option<string> := None;
    if body.Some? && RefreshTokenName in body.value {
      refreshToken := body.value[RefreshTokenName];
    } else {
      refreshToken := FindCookie(cookies, RefreshTokenName);
    }
    if refreshToken.None? || !isValidRefresh(refreshToken.value) {
      return Threw(JavaException(InvalidToken, InvalidRefreshMessage));
    }
    var newAccessToken := issueAccess(refreshToken.value);
    var newRefreshToken := issueRefresh(refreshToken.value);
    var accessTokenCookie := CreateCookie(AccessTokenName, newAccessToken, AccessCookieMaxAge);
    var refreshTokenCookie := CreateCookie(RefreshTokenName, newRefreshToken, RefreshCookieMaxAge);
    response.AddCookie(accessTokenCookie);
    response.AddCookie(refreshTokenCookie);
    return Returned(TokenResponse(newAccessToken, newRefreshToken, MillisToSeconds(accessExpirationMs)));
  }

  /** A body with the key decides the token alone: the cookies are ignored,
      and a null value there fails even when a good cookie is present. */
  lemma BodyKeyWins(body: map<string, Option<string>>, cookies1: Option<seq<RequestCookie>>,
                    cookies2: Option<seq<RequestCookie>>)
    requires RefreshTokenName in body
    ensures PresentedToken(Some(body), cookies1) == PresentedToken(Some(body), cookies2) == body[RefreshTokenName]
  {
  }

  /** Without the key (or without a body) the first `refreshToken` cookie is
      the token. */
  lemma CookieUsedWithoutBodyKey(body: Option<map<string, Option<string>>>, before: seq<RequestCookie>,
                                 value: string, after: seq<RequestCookie>)
    requires body.None? || RefreshTokenName !in body.value
    requires forall j :: 0 <= j < |before| ==> before[j].name != RefreshTokenName
    ensures PresentedToken(body, Some(before + [RequestCookie(RefreshTokenName, value)] + after)) == Some(value)
  {
    FirstCookieWins(before, RequestCookie(RefreshTokenName, value), after);
  }

  /** A missing token or one that is not a valid refresh token throws
      InvalidTokenException and sets no cookie; otherwise the response carries
      the two new tokens, each also set as a cookie with its lifetime, and
      every cookie is HttpOnly, not Secure, for path "/" on "localhost". */
  lemma RefreshOutcomes(body: Option<map<string, Option<string>>>, cookies: Option<seq<RequestCookie>>,
                        isValidRefresh: string -> bool, issueAccess: string -> string,
                        issueRefresh: string -> string, accessExpirationMs: int)
    ensures var (out, added) := RefreshOf(body, cookies, isValidRefresh, issueAccess, issueRefresh, accessExpirationMs);
            var token := PresentedToken(body, cookies);
            && (out.Threw? <==> token.None? || !isValidRefresh(token.value))
            && (out.Threw? ==> out.exception == JavaException(InvalidToken, InvalidRefreshMessage) && added == [])
            && (out.Returned? ==>
                  && |added| == 2
                  && added[0].name == AccessTokenName && added[0].value == out.value.accessToken
                  && added[0].maxAge == AccessCookieMaxAge
                  && added[1].name == RefreshTokenName && added[1].value == out.value.refreshToken
                  && added[1].maxAge == RefreshCookieMaxAge
                  && out.value.accessToken == issueAccess(token.value)
                  && out.value.refreshToken == issueRefresh(token.value)
                  && out.value.expiresIn == MillisToSeconds(accessExpirationMs))
            && (forall i :: 0 <= i < |added| ==> IsIssuedCookie(added[i]))
  {
  }
}

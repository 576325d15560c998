/** The request cookies the auth code reads: `getCookies()` is null when the
    request carries none, and a lookup takes the first cookie with the name. */
module Cookies {
  import opened Wrappers

  datatype RequestCookie = RequestCookie(name: string, value: string)

  /** The position of the first cookie named `name`, if any. */
  function CookieIndex(cookies: seq<RequestCookie>, name: string): (r: Option<nat>)
    ensures r.None? <==> forall i :: 0 <= i < |cookies| ==> cookies[i].name != name
    ensures r.Some? ==> r.value < |cookies| && cookies[r.value].name == name
    ensures r.Some? ==> forall j :: 0 <= j < r.value ==> cookies[j].name != name
    decreases |cookies|
  {
    if |cookies| == 0 then None
    else if cookies[0].name == name then Some(0)
    else
      match CookieIndex(cookies[1..], name)
      case None => None
      case Some(i) => Some(i + 1)
  }

  /** The value of the first cookie named `name`; none without cookies. */
  function CookieValue(cookies: Option<seq<RequestCookie>>, name: string): Option<string> {
    match cookies
    case None => None
    case Some(cs) =>
      match CookieIndex(cs, name)
      case None => None
      case Some(i) => Some(cs[i].value)
  }

  /** The cookie loop: walk the cookies and stop at the first with the name. */
  method FindCookie(cookies: Option<seq<RequestCookie>>, name: string) returns (value: Option<string>)
    ensures value == CookieValue(cookies, name)
  {
    if cookies.None? {
      return None;
    }
    var cs := cookies.value;
    var i := 0;
    while i < |cs|
      invariant 0 <= i <= |cs|
      invariant forall j :: 0 <= j < i ==> cs[j].name != name
    {
      if cs[i].name == name {
        return Some(cs[i].value);
      }
      i := i + 1;
    }
    return None;
  }

  /** Later cookies with the same name are ignored, and cookies with other
      names do not matter. */
  lemma {:induction false} FirstCookieWins(before: seq<RequestCookie>, c: RequestCookie, after: seq<RequestCookie>)
    requires forall j :: 0 <= j < |before| ==> before[j].name != c.name
    ensures CookieValue(Some(before + [c] + after), c.name) == Some(c.value)
  {
    var cs := before + [c] + after;
    assert cs[|before|] == c;
    assert forall j :: 0 <= j < |before| ==> cs[j] == before[j];
  }
}

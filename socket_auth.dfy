/**
 * The Socket.IO handshake: where the token comes from, and whether the
 * connection is accepted. Signature checking is an abstract outcome.
 */
module SocketAuth {
  import opened Wrappers
  import opened Events
  import Text

  /** A cookie's name: the text before its first `=`. */
  function CookieName(cookie: string): string {
    Text.Split(cookie, '=')[0]
  }

  /** A cookie's value: the text between its first and second `=`; absent without any `=`. */
  function CookieValue(cookie: string): (v: Option<string>)
    ensures v.Some? ==> '=' !in v.value && '=' in cookie
  {
    var parts := Text.Split(cookie, '=');
    if |parts| > 1 then Some(parts[1]) else None
  }

  /** Outcome of scanning the cookie list: the first cookie named `token` (its value may be absent), or none. */
  datatype Scan = Found(value: Option<string>) | NotFound

  /** Reference definition of the scan: the first trimmed cookie named exactly `token`. */
  function FirstTokenCookie(cookies: seq<string>): Scan
  {
    if cookies == [] then NotFound
    else if CookieName(Text.Trim(cookies[0])) == "token" then Found(CookieValue(Text.Trim(cookies[0])))
    else FirstTokenCookie(cookies[1..])
  }

  predicate NamedToken(cookies: seq<string>, i: int)
    requires 0 <= i < |cookies|
  {
    CookieName(Text.Trim(cookies[i])) == "token"
  }

  /** Index of the first cookie named `token`, or the number of cookies when there is none. */
  function TokenIndex(cookies: seq<string>): (i: nat)
    ensures i <= |cookies|
    ensures forall j :: 0 <= j < i ==> !NamedToken(cookies, j)
    ensures i < |cookies| ==> NamedToken(cookies, i)
  {
    if cookies == [] then 0
    else if NamedToken(cookies, 0) then 0
    else
      var k := TokenIndex(cookies[1..]);
      assert forall j :: 0 < j < |cookies| ==> NamedToken(cookies, j) == NamedToken(cookies[1..], j - 1) by {
        forall j | 0 < j < |cookies| ensures NamedToken(cookies, j) == NamedToken(cookies[1..], j - 1) {
          assert cookies[1..][j - 1] == cookies[j];
        }
      }
      k + 1
  }

  /** The scan yields the value of the cookie at the first `token` index, and nothing when there is none. */
  lemma {:induction false} FirstTokenCookieIsFirst(cookies: seq<string>)
    ensures var i := TokenIndex(cookies);
      FirstTokenCookie(cookies) == if i < |cookies| then Found(CookieValue(Text.Trim(cookies[i]))) else NotFound
  {
    if cookies != [] && !NamedToken(cookies, 0) {
      FirstTokenCookieIsFirst(cookies[1..]);
      assert forall j :: 0 < j < |cookies| ==> cookies[1..][j - 1] == cookies[j];
    }
  }

  /**
   * The token the handshake ends up with: the explicit `auth.token` when truthy;
   * otherwise, when a cookie header is present, the first `token` cookie's value;
   * otherwise the (falsy) explicit token unchanged.
   */
  function HandshakeToken(authToken: Option<string>, cookieHeader: Option<string>): Option<string>
  {
    if Truthy(authToken) || !Truthy(cookieHeader) then authToken
    else match FirstTokenCookie(Text.Split(cookieHeader.value, ';'))
      case Found(v) => v
      case NotFound => authToken
  }

  /** The explicit token wins; the cookie header matters only when that token is falsy. */
  lemma ExplicitTokenWins(authToken: Option<string>, cookieHeader: Option<string>)
    ensures Truthy(authToken) ==> HandshakeToken(authToken, cookieHeader) == authToken
    ensures !Truthy(cookieHeader) ==> HandshakeToken(authToken, cookieHeader) == authToken
  {
  }

  /** The scan from index `i` looks at cookie `i` and, when it is not `token`, goes on from `i + 1`. */
  lemma ScanStep(cookies: seq<string>, i: nat)
    requires i < |cookies|
    ensures FirstTokenCookie(cookies[i..]) ==
              if CookieName(Text.Trim(cookies[i])) == "token" then Found(CookieValue(Text.Trim(cookies[i])))
              else FirstTokenCookie(cookies[i + 1..])
  {
    assert cookies[i..][1..] == cookies[i + 1..];
  }

  /** Lines 26-38: the explicit token, or else the value the cookie loop finds. */
  method ResolveToken(authToken: Option<string>, cookieHeader: Option<string>) returns (token: Option<string>)
    ensures token == HandshakeToken(authToken, cookieHeader)
  {
    token := authToken;
    if !Truthy(token) && Truthy(cookieHeader) {
      var scan := ScanCookies(Text.Split(cookieHeader.value, ';'));
      if scan.Found? {
        token := scan.value;
      }
    }
  }

  /** The `for ... of` loop over the `;`-separated cookies, stopping at the first one named `token`. */
  method ScanCookies(rawCookies: seq<string>) returns (scan: Scan)
    ensures scan == FirstTokenCookie(rawCookies)
  {
    var i := 0;
    while i < |rawCookies|
      invariant 0 <= i <= |rawCookies|
      invariant FirstTokenCookie(rawCookies) == FirstTokenCookie(rawCookies[i..])
    {
      ScanStep(rawCookies, i);
      var cookie := Text.Trim(rawCookies[i]);
      if CookieName(cookie) == "token" {
        return Found(CookieValue(cookie));
      }
      i := i + 1;
    }
    return NotFound;
  }

  /** What `jwt.verify` did with the token: a payload naming a user id, a falsy payload, or a throw. */
  datatype Verification = Verified(subject: string) | VerifiedFalsy | VerifyThrew

  /** What `User.findById(subject)` did. */
  datatype UserLookup = UserFound(user: Profile) | UserMissing | LookupThrew

  datatype AuthOutcome = Accepted(user: Profile) | Rejected(reason: string)

  /** Lines 40-113: the middleware's verdict on a token. */
  function Authenticate(token: Option<string>, verification: Verification, lookup: UserLookup): (r: AuthOutcome)
    ensures r.Accepted? <==> Truthy(token) && verification.Verified? && lookup.UserFound?
    ensures r.Accepted? ==> r.user == lookup.user
    ensures r == Rejected("User not found") <==> Truthy(token) && verification.Verified? && lookup.UserMissing?
    ensures r.Rejected? && r.reason != "User not found" ==> r.reason == "Authentication error"
    ensures !Truthy(token) ==> r == Rejected("Authentication error")
  {
    if !Truthy(token) then Rejected("Authentication error")
    else match verification
      case VerifyThrew => Rejected("Authentication error")
      case VerifiedFalsy => Rejected("Authentication error")
      case Verified(_) =>
        match lookup
        case LookupThrew => Rejected("Authentication error")
        case UserMissing => Rejected("User not found")
        case UserFound(u) => Accepted(u)
  }
}

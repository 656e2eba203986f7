/**
 * The auth library of `src/app/api/auth/forgot-password/route.ts`: the
 * credential is taken from an `Authorization` header carrying a `Bearer`
 * token (section 2.1 of RFC 6750) or from the `auth-token` cookie, verified,
 * and the user with the id it names is looked up. Every failure on the way
 * yields `None`; `RequireAuth` and `RequirePremium` turn that into errors.
 *
 * JWT verification is a partial map from token to user id (`verifier`): a
 * token outside it is malformed, badly signed or expired. Verification is a
 * total function, so it cannot throw.
 */
module Auth {
  import opened Wrappers
  import opened Text
  import opened Http
  import opened Db

  const AuthCookie := "auth-token"
  const BearerPrefix := "Bearer "
  const AuthenticationRequired := "Authentication required"
  const PremiumRequired := "Premium subscription required"

  /**
   * `request.headers.get("authorization")?.replace("Bearer ", "") || request.cookies.get("auth-token")?.value`,
   * with an empty result counted as no token (`if (!token)`).
   */
  function ExtractToken(request: Request): (token: Option<string>)
    ensures token.Some? ==> token.value != ""
    ensures token.None? ==> AuthCookie !in request.cookies || request.cookies[AuthCookie] == ""
    ensures "authorization" !in request.headers ==> token == CookieToken(request)
  {
    var fromHeader :=
      if "authorization" in request.headers then ReplaceFirst(request.headers["authorization"], BearerPrefix, "") else "";
    if fromHeader != "" then Some(fromHeader) else CookieToken(request)
  }

  /** The `auth-token` cookie's value, when it is set and not empty. */
  function CookieToken(request: Request): (token: Option<string>)
    ensures token.Some? <==> AuthCookie in request.cookies && request.cookies[AuthCookie] != ""
    ensures token.Some? ==> token.value == request.cookies[AuthCookie]
  {
    if AuthCookie in request.cookies && request.cookies[AuthCookie] != "" then Some(request.cookies[AuthCookie]) else None
  }

  /**
   * With an `Authorization` header, the token is the header with its first
   * `"Bearer "` cut out (the header itself when there is none), unless that
   * leaves nothing, in which case the cookie decides.
   */
  lemma ExtractTokenFromHeader(request: Request)
    requires "authorization" in request.headers
    ensures var header := request.headers["authorization"];
      IndexOf(header, BearerPrefix).None? ==>
        ExtractToken(request) == (if header != "" then Some(header) else CookieToken(request))
    ensures var header := request.headers["authorization"];
      IndexOf(header, BearerPrefix).Some? ==>
        var i := IndexOf(header, BearerPrefix).value;
        var rest := header[..i] + header[i + |BearerPrefix|..];
        ExtractToken(request) == (if rest != "" then Some(rest) else CookieToken(request))
  {
    var header := request.headers["authorization"];
    if IndexOf(header, BearerPrefix).Some? {
      var i := IndexOf(header, BearerPrefix).value;
      assert header[..i] + "" + header[i + |BearerPrefix|..] == header[..i] + header[i + |BearerPrefix|..];
    }
  }

  /** `Authorization: Bearer <t>` yields `t`, whatever the cookie holds. */
  lemma BearerHeaderYieldsToken(request: Request, t: string)
    requires "authorization" in request.headers && request.headers["authorization"] == BearerPrefix + t
    requires t != ""
    ensures ExtractToken(request) == Some(t)
  {
    var h := BearerPrefix + t;
    assert OccursAt(h, BearerPrefix, 0);
    assert IndexOf(h, BearerPrefix) == Some(0);
    assert h[..0] + "" + h[|BearerPrefix|..] == t;
  }

  /** A header that never contains `"Bearer "` is taken verbatim as the token. */
  lemma HeaderWithoutBearerIsVerbatim(request: Request)
    requires "authorization" in request.headers && request.headers["authorization"] != ""
    requires forall j :: !OccursAt(request.headers["authorization"], BearerPrefix, j)
    ensures ExtractToken(request) == Some(request.headers["authorization"])
  {
  }

  /** A header that is nothing but the prefix is emptied and the cookie is used instead. */
  lemma BarePrefixFallsBackToCookie(request: Request)
    requires "authorization" in request.headers && request.headers["authorization"] == BearerPrefix
    ensures ExtractToken(request) ==
      (if AuthCookie in request.cookies && request.cookies[AuthCookie] != "" then Some(request.cookies[AuthCookie]) else None)
  {
    assert OccursAt(BearerPrefix, BearerPrefix, 0);
    assert IndexOf(BearerPrefix, BearerPrefix) == Some(0);
  }

  /** `verifyToken(token)`: the user id a valid token carries; any failure is `None`. */
  function VerifyToken(verifier: map<string, string>, token: string): Option<string> {
    if token in verifier then Some(verifier[token]) else None
  }

  /**
   * `getCurrentUser(request)`. Only the user table is consulted, and only
   * after the token verified; a store failure is caught and yields `None`.
   */
  function GetCurrentUser(users: seq<User>, online: bool, verifier: map<string, string>, request: Request): (user: Option<User>)
    ensures user.Some? ==>
      && online
      && ExtractToken(request).Some?
      && VerifyToken(verifier, ExtractToken(request).value) == Some(user.value.id)
      && user.value in users
    ensures user.None? && online && ExtractToken(request).Some? &&
            VerifyToken(verifier, ExtractToken(request).value).Some? ==>
      VerifyToken(verifier, ExtractToken(request).value).value !in Ids(users)
  {
    match ExtractToken(request)
    case None => None
    case Some(token) =>
      match VerifyToken(verifier, token)
      case None => None
      case Some(userId) =>
        if !online then None
        else
          var r := FindFirst(users, ById(userId));
          assert forall u :: ById(userId)(u) <==> u.id == userId;
          r
  }

  /**
   * A token that verifies to the id of a stored user resolves to that user;
   * no session is needed, so a token whose session was deleted still resolves.
   */
  lemma ResolvesWithoutSession(users: seq<User>, verifier: map<string, string>, request: Request, u: User)
    requires UniqueKeys(users) && u in users
    requires ExtractToken(request).Some? && VerifyToken(verifier, ExtractToken(request).value) == Some(u.id)
    ensures GetCurrentUser(users, true, verifier, request) == Some(u)
  {
    FindById(users, u);
  }

  /** `requireAuth(request)`: the resolved user, or the error "Authentication required". */
  function RequireAuth(users: seq<User>, online: bool, verifier: map<string, string>, request: Request): (r: Result<User, string>)
    ensures r.Success? <==> GetCurrentUser(users, online, verifier, request).Some?
    ensures r.Success? ==> r.value == GetCurrentUser(users, online, verifier, request).value
    ensures r.Failure? ==> r.error == AuthenticationRequired
  {
    match GetCurrentUser(users, online, verifier, request)
    case None => Failure(AuthenticationRequired)
    case Some(user) => Success(user)
  }

  /** `requirePremium(request)`: only a premium user; otherwise the first error that applies. */
  function RequirePremium(users: seq<User>, online: bool, verifier: map<string, string>, request: Request): (r: Result<User, string>)
    ensures var user := GetCurrentUser(users, online, verifier, request);
      && (r.Success? <==> user.Some? && user.value.isPremium)
      && (r.Success? ==> r.value == user.value)
      && (r.Failure? ==> r.error == (if user.None? then AuthenticationRequired else PremiumRequired))
  {
    match RequireAuth(users, online, verifier, request)
    case Failure(e) => Failure(e)
    case Success(user) => if !user.isPremium then Failure(PremiumRequired) else Success(user)
  }
}

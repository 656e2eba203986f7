/**
 * The route guards of `src/api/lib/middleware.ts`: `authMiddleware` and
 * `premiumMiddleware` decide from the resolved user whether the handler runs
 * (`Continue`, the source's `null`) or a JSON error is answered; and the
 * wildcard `corsMiddleware`, which sets its own CORS headers on a fresh
 * pass-through response without consulting any allow-list.
 */
module Guards {
  import opened Wrappers
  import opened Env
  import opened Http
  import opened Db
  import opened Auth
  import Cors

  datatype Decision = Continue | Deny(status: int, error: string)

  /** What `authMiddleware` does once the user is resolved. */
  function AuthDecision(user: Option<User>): (d: Decision)
    ensures d.Continue? <==> user.Some?
    ensures d.Deny? ==> d == Deny(401, AuthenticationRequired)
  {
    if user.None? then Deny(401, AuthenticationRequired) else Continue
  }

  /** What `premiumMiddleware` does once the user is resolved: 401 before 403. */
  function PremiumDecision(user: Option<User>): (d: Decision)
    ensures d.Continue? <==> user.Some? && user.value.isPremium
    ensures user.None? ==> d == Deny(401, AuthenticationRequired)
    ensures user.Some? && !user.value.isPremium ==> d == Deny(403, PremiumRequired)
  {
    if user.None? then Deny(401, AuthenticationRequired)
    else if !user.value.isPremium then Deny(403, PremiumRequired)
    else Continue
  }

  /** `authMiddleware`: a request goes on exactly when it resolves to a user. */
  function AuthMiddleware(users: seq<User>, online: bool, verifier: map<string, string>, request: Request): (d: Decision)
    ensures d.Continue? <==> GetCurrentUser(users, online, verifier, request).Some?
    ensures d.Deny? ==> d == Deny(401, AuthenticationRequired)
  {
    AuthDecision(GetCurrentUser(users, online, verifier, request))
  }

  /** `premiumMiddleware`: a request goes on exactly when it resolves to a premium user. */
  function PremiumMiddleware(users: seq<User>, online: bool, verifier: map<string, string>, request: Request): (d: Decision)
    ensures var user := GetCurrentUser(users, online, verifier, request);
      && (d.Continue? <==> user.Some? && user.value.isPremium)
      && (user.None? ==> d == Deny(401, AuthenticationRequired))
      && (user.Some? && !user.value.isPremium ==> d == Deny(403, PremiumRequired))
  {
    PremiumDecision(GetCurrentUser(users, online, verifier, request))
  }

  /** Whenever the premium guard lets a request through, the authentication guard does too. */
  lemma TierMonotone(users: seq<User>, online: bool, verifier: map<string, string>, request: Request)
    ensures PremiumMiddleware(users, online, verifier, request).Continue? ==>
            AuthMiddleware(users, online, verifier, request).Continue?
  {
  }

  /**
   * The guards agree with the throwing helpers: a guard continues exactly
   * when its helper returns a user, and denies with the message its helper throws.
   */
  lemma GuardsAgreeWithRequire(users: seq<User>, online: bool, verifier: map<string, string>, request: Request)
    ensures var a := AuthMiddleware(users, online, verifier, request);
            var r := RequireAuth(users, online, verifier, request);
      (a.Continue? <==> r.Success?) && (a.Deny? ==> a.error == r.error)
    ensures var p := PremiumMiddleware(users, online, verifier, request);
            var r := RequirePremium(users, online, verifier, request);
      (p.Continue? <==> r.Success?) && (p.Deny? ==> p.error == r.error)
  {
  }

  const WildcardMethods := "GET, POST, PUT, DELETE, OPTIONS"
  const WildcardHeaders := "Content-Type, Authorization"

  /** `corsMiddleware(request)`: a pass-through response with three fixed headers, whatever the request. */
  method CorsMiddleware(request: Request) returns (response: Response)
    ensures fresh(response)
    ensures response.status == 200 && response.body == PassThrough && response.cookies == []
    ensures response.headers == map[Cors.AllowOrigin := "*", Cors.AllowMethods := WildcardMethods,
                                    Cors.AllowHeaders := WildcardHeaders]
  {
    response := new Response.Next();
    response.SetHeader(Cors.AllowOrigin, "*");
    response.SetHeader(Cors.AllowMethods, WildcardMethods);
    response.SetHeader(Cors.AllowHeaders, WildcardHeaders);
  }

  /**
   * The wildcard setter disagrees with the allow-list policy for every
   * configuration and origin: the policy's method list (with PATCH) is never
   * the wildcard one, and the wildcard's `*` matches the policy's origin only when `*` itself is allowed.
   */
  lemma WildcardDisagreesWithPolicy(cfg: Config, origin: Option<string>)
    ensures var hs := Cors.BuildCorsHeaders(cfg, origin);
      && Lookup(hs, Cors.AllowMethods) != Some(WildcardMethods)
      && (Lookup(hs, Cors.AllowOrigin) == Some("*") ==> origin == Some("*") && Cors.IsOriginAllowed(cfg, origin))
  {
    Cors.BuildCorsHeadersMeaning(cfg, origin);
  }
}

/**
 * What the login and register routes both do once they have a user: a
 * session row lasting seven days, and the same credential in an HTTP-only
 * cookie with a seven-day max-age (the cookie counts seconds, the session
 * expiry milliseconds).
 */
module Sessions {
  import opened Env
  import opened Http
  import opened Db
  import opened Auth

  const SessionLifetimeMs := 7 * 24 * 60 * 60 * 1000
  const CookieMaxAge := 7 * 24 * 60 * 60

  /** `{ httpOnly: true, secure: NODE_ENV === 'production', maxAge: 7 days, path: '/' }`. */
  function AuthCookieOptions(cfg: Config): (options: CookieOptions)
    ensures options.httpOnly && options.path == "/"
    ensures options.secure <==> IsProduction(cfg)
    ensures options.maxAge * 1000 == SessionLifetimeMs
  {
    CookieOptions(true, IsProduction(cfg), CookieMaxAge, "/")
  }

  /** The row `prisma.session.create` makes: the credential, owned by the user, valid for seven days from `now`. */
  function NewSession(userId: string, token: string, now: int): (s: Session)
    ensures s.userId == userId && s.token == token
    ensures s.expiresAt > now && s.expiresAt - now == SessionLifetimeMs
  {
    Session(userId, token, now + SessionLifetimeMs)
  }

  /**
   * Starting a session for a stored user keeps the store's invariant, and
   * the cookie expires when the session does.
   */
  lemma NewSessionValid(cfg: Config, users: seq<User>, sessions: seq<Session>, u: User, token: string, now: int)
    requires forall s :: s in sessions ==> s.userId in Ids(users)
    requires u in users
    ensures forall s :: s in sessions + [NewSession(u.id, token, now)] ==> s.userId in Ids(users)
    ensures NewSession(u.id, token, now).expiresAt == now + AuthCookieOptions(cfg).maxAge * 1000
  {
    assert u.id in Ids(users);
  }
}

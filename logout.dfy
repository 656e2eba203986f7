/**
 * `POST` of `src/api/auth/logout/route.ts`: the credential is found as the
 * auth library finds it, every session holding it is deleted, and the
 * auth cookie is cleared, whether or not a session matched.
 */
module Logout {
  import opened Wrappers
  import opened JsonData
  import opened Http
  import opened Db
  import opened Auth

  const LoggedOut := "Logged out successfully"

  method Post(store: Store, request: Request) returns (response: Response)
    requires store.Valid()
    modifies store`sessions
    ensures store.Valid() && fresh(response)
    ensures var token := ExtractToken(request);
      if token.Some? && !store.online then
        && store.sessions == old(store.sessions)
        && response.status == 500 && response.body == JsonBody(ErrorJson(InternalError))
        && response.cookies == []
      else
        && store.sessions == (if token.Some? then WithoutToken(old(store.sessions), token.value) else old(store.sessions))
        && response.status == 200 && response.body == JsonBody(MessageJson(LoggedOut))
        && response.cookies == [CookieDeleted(AuthCookie)]
  {
    var token := ExtractToken(request);
    if token.Some? {
      if !store.online {
        response := new Response.FromJson(ErrorJson(InternalError), 500);
        return;
      }
      store.DeleteSessions(token.value);
    }
    response := new Response.FromJson(MessageJson(LoggedOut), 200);
    response.DeleteCookie(AuthCookie);
  }

  /** A second logout with the same credential leaves the sessions as the first one left them. */
  method LogoutTwice(store: Store, request: Request) returns (first: Response, second: Response)
    requires store.Valid() && store.online
    modifies store`sessions
    ensures store.Valid()
    ensures first.status == 200 && second.status == 200
    ensures ExtractToken(request).Some? ==> store.sessions == WithoutToken(old(store.sessions), ExtractToken(request).value)
    ensures ExtractToken(request).None? ==> store.sessions == old(store.sessions)
  {
    first := Post(store, request);
    second := Post(store, request);
    if ExtractToken(request).Some? {
      WithoutTokenIdempotent(old(store.sessions), ExtractToken(request).value);
    }
  }
}

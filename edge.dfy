/**
 * The edge `middleware` of `src/api/middleware.ts`: every request gets the
 * CORS headers decided from its `Origin` header and then the security
 * headers; an `OPTIONS` preflight is answered at once with 204 and no body,
 * any other request passes through to its handler.
 */
module Edge {
  import opened Wrappers
  import opened Env
  import opened Http
  import opened Cors
  import opened Security

  /** `request.headers.get('origin') || undefined`: an empty header counts as absent. */
  function RequestOrigin(request: Request): (origin: Option<string>)
    ensures origin.Some? <==> "origin" in request.headers && request.headers["origin"] != ""
    ensures origin.Some? ==> origin.value == request.headers["origin"]
  {
    if "origin" in request.headers && request.headers["origin"] != "" then Some(request.headers["origin"]) else None
  }

  /** The headers both paths end with: the CORS entries set on an empty map, then the security headers. */
  function EdgeHeaders(cfg: Config, origin: Option<string>): map<string, string> {
    WithSecurityHeaders(ApplyHeaders(map[], BuildCorsHeaders(cfg, origin)), IsProduction(cfg))
  }

  /** `Object.entries(corsHeaders).forEach(([k, v]) => response.headers.set(k, v))`. */
  method CopyHeaders(response: Response, entries: HeaderList)
    modifies response`headers
    ensures response.headers == ApplyHeaders(old(response.headers), entries)
  {
    var i := 0;
    while i < |entries|
      invariant 0 <= i <= |entries|
      invariant response.headers == ApplyHeaders(old(response.headers), entries[..i])
    {
      assert entries[..i + 1][..i] == entries[..i];
      response.SetHeader(entries[i].0, entries[i].1);
      i := i + 1;
    }
    assert entries[..i] == entries;
  }

  method Middleware(cfg: Config, request: Request) returns (response: Response)
    ensures fresh(response)
    ensures request.verb == "OPTIONS" ==> response.status == 204 && response.body == NoBody
    ensures request.verb != "OPTIONS" ==> response.status == 200 && response.body == PassThrough
    ensures response.headers == EdgeHeaders(cfg, RequestOrigin(request))
    ensures response.cookies == []
  {
    var origin := RequestOrigin(request);
    var corsHeaders := BuildCorsHeaders(cfg, origin);
    if request.verb == "OPTIONS" {
      response := new Response.WithoutBody(204);
      CopyHeaders(response, corsHeaders);
      AddSecurityHeaders(response, IsProduction(cfg));
      return;
    }
    response := new Response.Next();
    CopyHeaders(response, corsHeaders);
    AddSecurityHeaders(response, IsProduction(cfg));
  }

  /**
   * What a response leaving the edge carries, on either path: `Vary: Origin`,
   * the echoed origin or `null`, credentials exactly when the origin is
   * allowed, and in production the six security headers; the security headers
   * never displace a CORS header.
   */
  lemma EdgeHeadersMeaning(cfg: Config, origin: Option<string>)
    ensures var h := EdgeHeaders(cfg, origin);
      && Vary in h && h[Vary] == "Origin"
      && AllowOrigin in h
      && h[AllowOrigin] == (if IsOriginAllowed(cfg, origin) then origin.value else "null")
      && (AllowCredentials in h <==> IsOriginAllowed(cfg, origin))
      && (IsOriginAllowed(cfg, origin) ==>
            && h[AllowCredentials] == "true"
            && AllowMethods in h && h[AllowMethods] == AllowedMethodList
            && AllowHeaders in h && h[AllowHeaders] == AllowedHeaderList)
      && (IsProduction(cfg) ==> SecurityHeaderNames <= h.Keys && h[StrictTransportSecurity] == HstsValue)
      && (!IsProduction(cfg) ==> h.Keys !! SecurityHeaderNames)
  {
    var c := ApplyHeaders(map[], BuildCorsHeaders(cfg, origin));
    CorsPart(cfg, origin);
    NamesDisjoint();
    forall name | name in CorsHeaderNames && name in c
      ensures name in EdgeHeaders(cfg, origin) && EdgeHeaders(cfg, origin)[name] == c[name]
    {
      OtherHeadersPreserved(c, IsProduction(cfg), name);
    }
    if IsProduction(cfg) {
      ProductionValues(c);
    }
  }

  lemma NamesDisjoint()
    ensures CorsHeaderNames !! SecurityHeaderNames
  {
  }

  /** The CORS entries set on an empty map: each decided name with its decided value, and nothing else. */
  lemma CorsPart(cfg: Config, origin: Option<string>)
    ensures var c := ApplyHeaders(map[], BuildCorsHeaders(cfg, origin));
      && c.Keys <= CorsHeaderNames
      && Vary in c && c[Vary] == "Origin"
      && AllowOrigin in c
      && c[AllowOrigin] == (if IsOriginAllowed(cfg, origin) then origin.value else "null")
      && (AllowCredentials in c <==> IsOriginAllowed(cfg, origin))
      && (IsOriginAllowed(cfg, origin) ==>
            && c[AllowCredentials] == "true"
            && AllowMethods in c && c[AllowMethods] == AllowedMethodList
            && AllowHeaders in c && c[AllowHeaders] == AllowedHeaderList)
  {
    var hs := BuildCorsHeaders(cfg, origin);
    BuildCorsHeadersMeaning(cfg, origin);
    ApplyHeadersKeys(map[], hs);
    assert Names(hs) <= CorsHeaderNames;
    ApplyHeadersLookup(map[], hs, Vary);
    ApplyHeadersLookup(map[], hs, AllowOrigin);
    ApplyHeadersLookup(map[], hs, AllowCredentials);
    ApplyHeadersLookup(map[], hs, AllowMethods);
    ApplyHeadersLookup(map[], hs, AllowHeaders);
  }
}

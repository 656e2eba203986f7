/**
 * `addSecurityHeaders` of `src/api/middleware/security.ts`: in production,
 * six fixed headers are written onto the response, each with `set`, so a
 * second application changes nothing. `Strict-Transport-Security` is the
 * header of section 6.1 of RFC 6797.
 */
module Security {
  import opened Http

  const StrictTransportSecurity := "Strict-Transport-Security"
  const ContentSecurityPolicy := "Content-Security-Policy"
  const ContentTypeOptions := "X-Content-Type-Options"
  const FrameOptions := "X-Frame-Options"
  const ReferrerPolicy := "Referrer-Policy"
  const XssProtection := "X-XSS-Protection"

  const HstsValue := "max-age=63072000; includeSubDomains; preload"
  const CspValue := "default-src 'self'; script-src 'self'; object-src 'none'; frame-ancestors 'none'; base-uri 'self';"
  const NoSniff := "nosniff"
  const Deny := "DENY"
  const StrictOriginWhenCrossOrigin := "strict-origin-when-cross-origin"
  const BlockMode := "1; mode=block"

  const SecurityHeaderNames: set<string> :=
    {StrictTransportSecurity, ContentSecurityPolicy, ContentTypeOptions, FrameOptions, ReferrerPolicy, XssProtection}

  /** The header map after `addSecurityHeaders`. */
  function WithSecurityHeaders(h: map<string, string>, production: bool): (r: map<string, string>)
    ensures r.Keys == if production then h.Keys + SecurityHeaderNames else h.Keys
  {
    if production then
      h[StrictTransportSecurity := HstsValue]
       [ContentSecurityPolicy := CspValue]
       [ContentTypeOptions := NoSniff]
       [FrameOptions := Deny]
       [ReferrerPolicy := StrictOriginWhenCrossOrigin]
       [XssProtection := BlockMode]
    else h
  }

  /** Six writes under one production guard. */
  method AddSecurityHeaders(response: Response, production: bool)
    modifies response`headers
    ensures response.headers == WithSecurityHeaders(old(response.headers), production)
  {
    if production {
      response.SetHeader(StrictTransportSecurity, HstsValue);
      response.SetHeader(ContentSecurityPolicy, CspValue);
      response.SetHeader(ContentTypeOptions, NoSniff);
      response.SetHeader(FrameOptions, Deny);
      response.SetHeader(ReferrerPolicy, StrictOriginWhenCrossOrigin);
      response.SetHeader(XssProtection, BlockMode);
    }
  }

  /** Outside production the header map is left as it was. */
  lemma NonProductionUnchanged(h: map<string, string>)
    ensures WithSecurityHeaders(h, false) == h
  {
  }

  /**
   * In production the six headers end with exactly their fixed values,
   * whatever the map held before, and only those six names are added.
   */
  lemma ProductionValues(h: map<string, string>)
    ensures var r := WithSecurityHeaders(h, true);
      && r.Keys == h.Keys + SecurityHeaderNames
      && r[StrictTransportSecurity] == HstsValue
      && r[ContentSecurityPolicy] == CspValue
      && r[ContentTypeOptions] == NoSniff
      && r[FrameOptions] == Deny
      && r[ReferrerPolicy] == StrictOriginWhenCrossOrigin
      && r[XssProtection] == BlockMode
  {
  }

  /** Every other header keeps its value. */
  lemma OtherHeadersPreserved(h: map<string, string>, production: bool, name: string)
    requires name !in SecurityHeaderNames && name in h
    ensures name in WithSecurityHeaders(h, production)
    ensures WithSecurityHeaders(h, production)[name] == h[name]
  {
  }

  /** Applying twice gives the map applying once gives. */
  lemma Idempotent(h: map<string, string>, production: bool)
    ensures WithSecurityHeaders(WithSecurityHeaders(h, production), production) == WithSecurityHeaders(h, production)
  {
  }
}

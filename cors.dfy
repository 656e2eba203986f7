/**
 * The CORS policy of `src/api/lib/cors.ts`: an allow-list chosen by the
 * environment, the origin check, and the response headers built from it
 * (the CORS protocol of section 3.2 of the WHATWG Fetch Standard).
 */
module Cors {
  import opened Wrappers
  import opened Text
  import opened Env
  import opened Http

  const AllowOrigin := "Access-Control-Allow-Origin"
  const AllowCredentials := "Access-Control-Allow-Credentials"
  const AllowMethods := "Access-Control-Allow-Methods"
  const AllowHeaders := "Access-Control-Allow-Headers"
  const Vary := "Vary"

  const CorsHeaderNames: set<string> := {AllowOrigin, AllowCredentials, AllowMethods, AllowHeaders, Vary}

  const AllowedMethodList := "GET,POST,PUT,PATCH,DELETE,OPTIONS"
  const AllowedHeaderList := "Content-Type,Authorization"
  const DefaultDevOrigins := "http://localhost:3000"

  /** The raw comma-separated list for the current environment; anything but production or staging is development. */
  function AllowListSetting(cfg: Config): string {
    if IsProduction(cfg) then OrElse(cfg.corsAllowedOriginsProd, "")
    else if IsStaging(cfg) then OrElse(cfg.corsAllowedOriginsStaging, "")
    else OrElse(cfg.corsAllowedOriginsDev, DefaultDevOrigins)
  }

  /** `getAllowedOrigins()`: the setting split on commas, each entry trimmed. */
  function AllowedOrigins(cfg: Config): (origins: seq<string>)
    ensures |origins| == |Split(AllowListSetting(cfg), ',')| >= 1
    ensures forall i :: 0 <= i < |origins| ==> ',' !in origins[i] && Trimmed(origins[i])
  {
    SplitPiecesLackSeparator(AllowListSetting(cfg), ',');
    var pieces := Split(AllowListSetting(cfg), ',');
    seq(|pieces|, i requires 0 <= i < |pieces| => Trim(pieces[i]))
  }

  /** `isOriginAllowed(origin)`: a missing or empty origin is refused before the list is consulted. */
  function IsOriginAllowed(cfg: Config, origin: Option<string>): (allowed: bool)
    ensures allowed ==> origin.Some? && origin.value != ""
    ensures allowed ==> ',' !in origin.value && Trimmed(origin.value)
  {
    origin.Some? && origin.value != "" && origin.value in AllowedOrigins(cfg)
  }

  /** `buildCORSHeaders(origin)`. */
  function BuildCorsHeaders(cfg: Config, origin: Option<string>): HeaderList {
    if origin.None? || !IsOriginAllowed(cfg, origin) then RefusedList()
    else AllowedList(origin.value)
  }

  /**
   * A refused origin gets exactly the two headers
   * `Access-Control-Allow-Origin: null` and `Vary: Origin`; an allowed one is
   * echoed with credentials, methods and headers, and `Vary`. No name is set twice.
   */
  lemma BuildCorsHeadersMeaning(cfg: Config, origin: Option<string>)
    ensures var hs := BuildCorsHeaders(cfg, origin);
      && DistinctNames(hs)
      && (forall i :: 0 <= i < |hs| ==> hs[i].0 in CorsHeaderNames)
      && Lookup(hs, Vary) == Some("Origin")
      && Lookup(hs, AllowOrigin) == Some(if IsOriginAllowed(cfg, origin) then origin.value else "null")
      && (Lookup(hs, AllowCredentials).Some? <==> IsOriginAllowed(cfg, origin))
      && (!IsOriginAllowed(cfg, origin) ==> |hs| == 2)
      && (IsOriginAllowed(cfg, origin) ==>
            && |hs| == 5
            && Lookup(hs, AllowCredentials) == Some("true")
            && Lookup(hs, AllowMethods) == Some(AllowedMethodList)
            && Lookup(hs, AllowHeaders) == Some(AllowedHeaderList))
  {
    if origin.None? || !IsOriginAllowed(cfg, origin) {
      RefusedEntries();
    } else {
      AllowedEntries(origin.value);
    }
  }

  /** The five CORS header names are pairwise different. */
  lemma CorsNamesDiffer()
    ensures AllowOrigin != AllowCredentials && AllowOrigin != AllowMethods && AllowOrigin != AllowHeaders
    ensures AllowCredentials != AllowMethods && AllowCredentials != AllowHeaders
    ensures AllowMethods != AllowHeaders
    ensures Vary != AllowOrigin && Vary != AllowCredentials && Vary != AllowMethods && Vary != AllowHeaders
  {
    assert |AllowOrigin| == 27 && |AllowCredentials| == 32 && |Vary| == 4;
    assert |AllowMethods| == 28 && |AllowHeaders| == 28;
    assert AllowMethods[21] == 'M' && AllowHeaders[21] == 'H';
  }

  /** The headers for a refused origin. */
  function RefusedList(): HeaderList {
    [(AllowOrigin, "null"), (Vary, "Origin")]
  }

  /** The headers for an allowed origin. */
  function AllowedList(origin: string): HeaderList {
    [ (AllowOrigin, origin),
      (AllowCredentials, "true"),
      (AllowMethods, AllowedMethodList),
      (AllowHeaders, AllowedHeaderList),
      (Vary, "Origin") ]
  }

  /** The two entries for a refused origin, as each name looks them up. */
  lemma RefusedEntries()
    ensures var hs := RefusedList();
      && |hs| == 2 && DistinctNames(hs) && (forall i :: 0 <= i < |hs| ==> hs[i].0 in CorsHeaderNames)
      && Lookup(hs, AllowOrigin) == Some("null") && Lookup(hs, Vary) == Some("Origin")
      && Lookup(hs, AllowCredentials).None?
  {
    CorsNamesDiffer();
    var hs := RefusedList();
    LookupDistinct(hs, 0);
    LookupDistinct(hs, 1);
  }

  /** The five entries for an allowed origin, as each name looks them up. */
  lemma AllowedEntries(origin: string)
    ensures var hs := AllowedList(origin);
      && |hs| == 5 && DistinctNames(hs) && (forall i :: 0 <= i < |hs| ==> hs[i].0 in CorsHeaderNames)
      && Lookup(hs, AllowOrigin) == Some(origin) && Lookup(hs, Vary) == Some("Origin")
      && Lookup(hs, AllowCredentials) == Some("true")
      && Lookup(hs, AllowMethods) == Some(AllowedMethodList)
      && Lookup(hs, AllowHeaders) == Some(AllowedHeaderList)
  {
    CorsNamesDiffer();
    var hs := AllowedList(origin);
    LookupDistinct(hs, 0);
    LookupDistinct(hs, 1);
    LookupDistinct(hs, 2);
    LookupDistinct(hs, 3);
    LookupDistinct(hs, 4);
  }

  /**
   * A non-empty origin is allowed exactly when some comma-separated entry of
   * the environment's setting, once trimmed, equals it character for character.
   */
  lemma AllowedIffListed(cfg: Config, origin: string)
    ensures IsOriginAllowed(cfg, Some(origin)) <==>
      origin != "" && exists p :: p in Split(AllowListSetting(cfg), ',') && Trim(p) == origin
  {
    var pieces := Split(AllowListSetting(cfg), ',');
    var origins := AllowedOrigins(cfg);
    if IsOriginAllowed(cfg, Some(origin)) {
      var i :| 0 <= i < |origins| && origins[i] == origin;
      assert pieces[i] in pieces && Trim(pieces[i]) == origin;
    }
    if origin != "" && exists p :: p in pieces && Trim(p) == origin {
      var p :| p in pieces && Trim(p) == origin;
      var i :| 0 <= i < |pieces| && pieces[i] == p;
      assert origins[i] == origin;
    }
  }

  /** The empty origin is never allowed, even when the list holds an empty entry. */
  lemma EmptyOriginNeverAllowed(cfg: Config)
    ensures !IsOriginAllowed(cfg, None) && !IsOriginAllowed(cfg, Some(""))
    ensures Lookup(BuildCorsHeaders(cfg, None), AllowOrigin) == Some("null")
  {
    BuildCorsHeadersMeaning(cfg, None);
  }

  /** In production with the list unset or empty, the list is `[""]` and no origin is allowed. */
  lemma UnsetProductionListAllowsNothing(cfg: Config, origin: Option<string>)
    requires IsProduction(cfg)
    requires cfg.corsAllowedOriginsProd.None? || cfg.corsAllowedOriginsProd == Some("")
    ensures AllowedOrigins(cfg) == [""]
    ensures !IsOriginAllowed(cfg, origin)
  {
    assert AllowListSetting(cfg) == "";
    assert Split("", ',') == [""];
  }

  /** A setting that is one trimmed entry without commas allows exactly that entry. */
  lemma SingleEntrySetting(cfg: Config)
    requires ',' !in AllowListSetting(cfg) && Trimmed(AllowListSetting(cfg))
    ensures AllowedOrigins(cfg) == [AllowListSetting(cfg)]
  {
    var s := AllowListSetting(cfg);
    SplitWithoutSeparator(s, ',');
    var origins := AllowedOrigins(cfg);
    assert |origins| == 1 && origins[0] == Trim(s) == s;
  }

  /** Outside production and staging, an unset development list means only `http://localhost:3000`. */
  lemma DevelopmentDefault(cfg: Config, origin: string)
    requires !IsProduction(cfg) && !IsStaging(cfg)
    requires cfg.corsAllowedOriginsDev.None? || cfg.corsAllowedOriginsDev == Some("")
    ensures AllowedOrigins(cfg) == [DefaultDevOrigins]
    ensures IsOriginAllowed(cfg, Some(origin)) <==> origin == DefaultDevOrigins
  {
    assert AllowListSetting(cfg) == DefaultDevOrigins;
    DefaultDevOriginsIsOneEntry();
    SingleEntrySetting(cfg);
  }

  /** The development default is a single trimmed entry. */
  lemma DefaultDevOriginsIsOneEntry()
    ensures ',' !in DefaultDevOrigins && Trimmed(DefaultDevOrigins) && DefaultDevOrigins != ""
  {
    var d := DefaultDevOrigins;
    assert d[0] == 'h' && d[|d| - 1] == '0';
  }

  /**
   * The credentials header only accompanies `Access-Control-Allow-Origin: null`
   * when the literal origin `null` is itself on the list.
   */
  lemma CredentialsWithNullOnlyIfListed(cfg: Config, origin: Option<string>)
    ensures var hs := BuildCorsHeaders(cfg, origin);
      Lookup(hs, AllowOrigin) == Some("null") && Lookup(hs, AllowCredentials).Some? ==>
        "null" in AllowedOrigins(cfg)
  {
    BuildCorsHeadersMeaning(cfg, origin);
  }
}

/** The process environment the core reads (`process.env`), fixed for the life of the process. */
module Env {
  import opened Wrappers

  /** `None` is an unset variable. */
  datatype Config = Config(
    nodeEnv: Option<string>,
    corsAllowedOriginsProd: Option<string>,
    corsAllowedOriginsStaging: Option<string>,
    corsAllowedOriginsDev: Option<string>)

  predicate IsProduction(cfg: Config) {
    cfg.nodeEnv == Some("production")
  }

  predicate IsStaging(cfg: Config) {
    cfg.nodeEnv == Some("staging")
  }

  /** `process.env.X || fallback`: an unset or empty variable yields the fallback. */
  function OrElse(v: Option<string>, fallback: string): string {
    if v.Some? && v.value != "" then v.value else fallback
  }
}

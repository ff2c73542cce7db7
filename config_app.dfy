/**
 * The top-level configuration: application metadata and API settings with
 * their guard chains, and `AppConfig::validate`, which runs the eleven
 * section validations in a fixed order and reports the first error. The
 * server, database, cache, metrics, observability and health sections come
 * from the shared lighter_common crate, whose rules are not part of this
 * model: each is known here only by the verdict of its own `validate`.
 */
module ConfigApp {
  import opened Wrappers
  import opened Configs
  import ConfigAuth
  import ConfigSecurity
  import ConfigResilience

  // The `ValidationError` messages, word for word.
  const NameMessage: string := "app.name cannot be empty"
  const VersionMessage: string := "app.version cannot be empty"
  const EnvironmentMessage: string := "app.environment cannot be empty"
  const ShutdownTimeoutMessage: string := "app.shutdown_timeout must be > 0"
  const ApiVersionMessage: string := "api.version cannot be empty"
  const SwaggerPathMessage: string := "api.swagger_path cannot be empty when swagger is enabled"

  datatype AppMetadata = AppMetadata(name: string, version: string, environment: string, shutdownTimeout: nat)
  {
    function Guards(): seq<Guard>
    {
      [ Guard(name == "", NameMessage),
        Guard(version == "", VersionMessage),
        Guard(environment == "", EnvironmentMessage),
        Guard(shutdownTimeout == 0, ShutdownTimeoutMessage) ]
    }

    function Validate(): (r: Verdict)
      ensures r.Pass? <==> name != "" && version != "" && environment != "" && shutdownTimeout > 0
    {
      FirstFiring(Guards())
    }
  }

  datatype ApiConfig = ApiConfig(version: string, swaggerEnabled: bool, swaggerPath: string)
  {
    function Guards(): seq<Guard>
    {
      [ Guard(version == "", ApiVersionMessage),
        Guard(swaggerEnabled && swaggerPath == "", SwaggerPathMessage) ]
    }

    /** The Swagger path only matters when Swagger is on. */
    function Validate(): (r: Verdict)
      ensures r.Pass? <==> version != "" && (swaggerEnabled ==> swaggerPath != "")
    {
      FirstFiring(Guards())
    }
  }

  /** A lighter_common section, known only by the verdict of its `validate`. */
  datatype CommonConfig = CommonConfig(verdict: Verdict)

  datatype AppConfig = AppConfig(
    app: AppMetadata, server: CommonConfig, database: CommonConfig, cache: CommonConfig,
    metrics: CommonConfig, observability: CommonConfig, health: CommonConfig,
    auth: ConfigAuth.AuthConfig, security: ConfigSecurity.SecurityConfig,
    resilience: ConfigResilience.ResilienceConfig, api: ApiConfig)
  {
    /** The section verdicts in the order `validate` asks for them. */
    function Sections(): seq<Verdict>
    {
      [ app.Validate(), server.verdict, database.verdict, cache.verdict, metrics.verdict,
        observability.verdict, health.verdict, auth.Validate(), security.Validate(),
        resilience.Validate(), api.Validate() ]
    }

    /**
     * Pass iff every section passes; otherwise the error of the first failing
     * section, unchanged.
     */
    function Validate(): (r: Verdict)
      ensures r.Pass? <==> app.Validate().Pass? && server.verdict.Pass? && database.verdict.Pass?
                           && cache.verdict.Pass? && metrics.verdict.Pass?
                           && observability.verdict.Pass? && health.verdict.Pass?
                           && auth.Validate().Pass? && security.Validate().Pass?
                           && resilience.Validate().Pass? && api.Validate().Pass?
    {
      Chain(Sections())
    }
  }

  /** The message names the first empty or zero field, in declaration order. */
  lemma AppMetadataNamesFirstProblem(m: AppMetadata)
    ensures m.name == "" ==> m.Validate() == Fail(ValidationError(NameMessage))
    ensures m.name != "" && m.version == "" ==> m.Validate() == Fail(ValidationError(VersionMessage))
    ensures m.name != "" && m.version != "" && m.environment == ""
      ==> m.Validate() == Fail(ValidationError(EnvironmentMessage))
    ensures m.name != "" && m.version != "" && m.environment != "" && m.shutdownTimeout == 0
      ==> m.Validate() == Fail(ValidationError(ShutdownTimeoutMessage))
  {
    var g := m.Guards();
    var k := if m.name == "" then 0 else if m.version == "" then 1
             else if m.environment == "" then 2 else 3;
    if g[k].fires {
      FirstFiringAt(g, k);
    }
  }

  /**
   * The default metadata; its version is the crate's package version, which
   * is fixed at build time and is a parameter here.
   */
  function DefaultAppMetadata(packageVersion: string): (m: AppMetadata)
    ensures m.version == packageVersion
    ensures m.Validate().Pass? <==> packageVersion != ""
  {
    AppMetadata("lighter-auth", packageVersion, "development", 30)
  }

  const DefaultApiConfig := ApiConfig("v1", true, "/docs")

  /** `AppConfig::with_defaults`, given the lighter_common sections' own defaults. */
  function DefaultAppConfig(packageVersion: string, server: CommonConfig, database: CommonConfig,
                            cache: CommonConfig, metrics: CommonConfig, observability: CommonConfig,
                            health: CommonConfig): AppConfig
  {
    AppConfig(DefaultAppMetadata(packageVersion), server, database, cache, metrics, observability,
              health, ConfigAuth.DefaultAuthConfig, ConfigSecurity.DefaultSecurityConfig,
              ConfigResilience.DefaultResilienceConfig, DefaultApiConfig)
  }

  /**
   * The defaults of this crate's own sections validate, so the default
   * configuration validates exactly when the lighter_common defaults do.
   */
  lemma DefaultsValidate(packageVersion: string, server: CommonConfig, database: CommonConfig,
                         cache: CommonConfig, metrics: CommonConfig, observability: CommonConfig,
                         health: CommonConfig)
    requires packageVersion != ""
    ensures DefaultApiConfig.Validate().Pass?
    ensures DefaultAppConfig(packageVersion, server, database, cache, metrics, observability, health)
              .Validate().Pass?
        <==> server.verdict.Pass? && database.verdict.Pass? && cache.verdict.Pass?
             && metrics.verdict.Pass? && observability.verdict.Pass? && health.verdict.Pass?
  {
    ConfigAuth.DefaultsValidate();
    ConfigSecurity.DefaultsValidate();
    ConfigResilience.DefaultsValidate();
  }
}

/**
 * The security section of the configuration: CORS, rate limiting and the
 * response security headers, with their defaults and `validate` guard chains.
 * Some guards depend on `enabled`, some do not: a disabled CORS section still
 * needs a positive max-age, and disabled headers still need a positive HSTS
 * max-age.
 */
module ConfigSecurity {
  import opened Wrappers
  import opened Configs

  // The `ValidationError` messages, word for word.
  const CorsOriginsMessage: string := "security.cors.origins cannot be empty when CORS is enabled"
  const CorsMaxAgeMessage: string := "security.cors.max_age must be > 0"
  const RequestsMessage: string := "security.rate_limit.requests must be > 0 when rate limiting is enabled"
  const WindowMessage: string := "security.rate_limit.window must be > 0 when rate limiting is enabled"
  const CspMessage: string := "security.headers.csp cannot be empty when security headers are enabled"
  const HstsMaxAgeMessage: string := "security.headers.hsts_max_age must be > 0"

  datatype CorsConfig = CorsConfig(
    enabled: bool, origins: seq<string>, methods: seq<string>, headers: seq<string>,
    maxAge: nat, allowCredentials: bool)
  {
    function Guards(): seq<Guard>
    {
      [ Guard(enabled && origins == [], CorsOriginsMessage),
        Guard(maxAge == 0, CorsMaxAgeMessage) ]
    }

    /** Origins are required only when CORS is on; a zero max-age is always rejected. */
    function Validate(): (r: Verdict)
      ensures r.Pass? <==> (enabled ==> origins != []) && maxAge > 0
    {
      FirstFiring(Guards())
    }
  }

  datatype RateLimitConfig = RateLimitConfig(enabled: bool, requests: nat, window: nat, burst: nat)
  {
    function Guards(): seq<Guard>
    {
      [ Guard(enabled && requests == 0, RequestsMessage),
        Guard(enabled && window == 0, WindowMessage) ]
    }

    /** Only an enabled limiter is checked; the burst size never is. */
    function Validate(): (r: Verdict)
      ensures r.Pass? <==> (enabled ==> requests > 0 && window > 0)
      ensures !enabled ==> r.Pass?
    {
      FirstFiring(Guards())
    }
  }

  datatype SecurityHeadersConfig = SecurityHeadersConfig(
    enabled: bool, csp: string, hstsMaxAge: nat, xFrameOptions: string,
    xContentTypeOptions: string, referrerPolicy: string)
  {
    function Guards(): seq<Guard>
    {
      [ Guard(enabled && csp == "", CspMessage),
        Guard(hstsMaxAge == 0, HstsMaxAgeMessage) ]
    }

    /** The other three header values may be empty: an empty value only suppresses its header. */
    function Validate(): (r: Verdict)
      ensures r.Pass? <==> (enabled ==> csp != "") && hstsMaxAge > 0
    {
      FirstFiring(Guards())
    }
  }

  datatype SecurityConfig = SecurityConfig(
    cors: CorsConfig, rateLimit: RateLimitConfig, headers: SecurityHeadersConfig)
  {
    function AllGuards(): seq<Guard>
    {
      cors.Guards() + rateLimit.Guards() + headers.Guards()
    }

    /** `cors.validate()?`, then `rate_limit.validate()?`, then `headers.validate()?`. */
    function Validate(): (r: Verdict)
      ensures r.Pass? <==> cors.Validate().Pass? && rateLimit.Validate().Pass? && headers.Validate().Pass?
    {
      ChainThree(cors.Validate(), rateLimit.Validate(), headers.Validate());
      Chain([cors.Validate(), rateLimit.Validate(), headers.Validate()])
    }
  }

  /** The whole section reports the first firing guard of its six, in source order. */
  lemma SecurityConfigIsOneChain(c: SecurityConfig)
    ensures c.Validate() == FirstFiring(c.AllGuards())
  {
    ChainThreeFlat(c.cors.Guards(), c.rateLimit.Guards(), c.headers.Guards());
  }

  const DefaultCorsConfig :=
    CorsConfig(true, ["*"], ["GET", "POST", "PUT", "DELETE", "PATCH"],
               ["Authorization", "Content-Type"], 3600, false)

  const DefaultRateLimitConfig := RateLimitConfig(true, 100, 60, 20)

  const DefaultSecurityHeadersConfig :=
    SecurityHeadersConfig(true, "default-src 'self'", 31536000, "DENY", "nosniff",
                          "strict-origin-when-cross-origin")

  const DefaultSecurityConfig :=
    SecurityConfig(DefaultCorsConfig, DefaultRateLimitConfig, DefaultSecurityHeadersConfig)

  /** The defaults, all enabled, validate. */
  lemma DefaultsValidate()
    ensures |DefaultCorsConfig.methods| == 5 && |DefaultCorsConfig.headers| == 2
    ensures DefaultCorsConfig.Validate().Pass?
    ensures DefaultRateLimitConfig.Validate().Pass?
    ensures DefaultSecurityHeadersConfig.Validate().Pass?
    ensures DefaultSecurityConfig.Validate().Pass?
  {
  }
}

/**
 * The authentication section of the configuration: token lifetimes, the
 * per-user session limit, Argon2 parameters and JWT settings, with their
 * defaults and their `validate` guard chains. The u32/u64 fields are `nat`:
 * every check is a comparison with zero, so width does not matter.
 */
module ConfigAuth {
  import opened Wrappers
  import opened Configs

  // The `ValidationError` messages, word for word.
  const MemoryCostMessage: string := "auth.argon2.memory_cost must be > 0"
  const TimeCostMessage: string := "auth.argon2.time_cost must be > 0"
  const ParallelismMessage: string := "auth.argon2.parallelism must be > 0"
  const HashLengthMessage: string := "auth.argon2.hash_length must be > 0"
  const SaltLengthMessage: string := "auth.argon2.salt_length must be > 0"
  const JwtSecretMessage: string := "auth.jwt.secret must be set when JWT is enabled"
  const JwtIssuerMessage: string := "auth.jwt.issuer cannot be empty"
  const JwtAudienceMessage: string := "auth.jwt.audience cannot be empty"
  const TokenExpirationMessage: string := "auth.token_expiration must be > 0"
  const TokenCleanupIntervalMessage: string := "auth.token_cleanup_interval must be > 0"
  const MaxSessionsMessage: string := "auth.max_sessions must be > 0"
  const SessionCacheTtlMessage: string := "auth.session_cache_ttl must be > 0"

  datatype PasswordHashAlgorithm = Argon2 | Sha256

  datatype JwtAlgorithm = HS256 | HS384 | HS512 | RS256

  datatype Argon2Config = Argon2Config(
    memoryCost: nat, timeCost: nat, parallelism: nat, hashLength: nat, saltLength: nat)
  {
    /** The early returns of `Argon2Config::validate`, in source order. */
    function Guards(): seq<Guard>
    {
      [ Guard(memoryCost == 0, MemoryCostMessage),
        Guard(timeCost == 0, TimeCostMessage),
        Guard(parallelism == 0, ParallelismMessage),
        Guard(hashLength == 0, HashLengthMessage),
        Guard(saltLength == 0, SaltLengthMessage) ]
    }

    /** Fails iff some parameter is zero, naming the first zero one. */
    function Validate(): (r: Verdict)
      ensures r.Pass? <==> memoryCost > 0 && timeCost > 0 && parallelism > 0
                           && hashLength > 0 && saltLength > 0
    {
      FirstFiring(Guards())
    }
  }

  datatype JwtConfig = JwtConfig(
    enabled: bool, secret: string, algorithm: JwtAlgorithm, issuer: string, audience: string)
  {
    function Guards(): seq<Guard>
    {
      [ Guard(enabled && secret == "", JwtSecretMessage),
        Guard(issuer == "", JwtIssuerMessage),
        Guard(audience == "", JwtAudienceMessage) ]
    }

    /** The secret is only required when JWT is enabled; issuer and audience always are. */
    function Validate(): (r: Verdict)
      ensures r.Pass? <==> (enabled ==> secret != "") && issuer != "" && audience != ""
    {
      FirstFiring(Guards())
    }
  }

  datatype AuthConfig = AuthConfig(
    tokenExpiration: nat, tokenCleanupInterval: nat, maxSessions: nat, sessionCacheTtl: nat,
    passwordHashAlgorithm: PasswordHashAlgorithm, argon2: Argon2Config, jwt: JwtConfig)
  {
    /** The section's own early returns, checked before the nested sections. */
    function Guards(): seq<Guard>
    {
      [ Guard(tokenExpiration == 0, TokenExpirationMessage),
        Guard(tokenCleanupInterval == 0, TokenCleanupIntervalMessage),
        Guard(maxSessions == 0, MaxSessionsMessage),
        Guard(sessionCacheTtl == 0, SessionCacheTtlMessage) ]
    }

    /** Every guard of the section, the nested ones included, in the order they run. */
    function AllGuards(): seq<Guard>
    {
      Guards() + argon2.Guards() + jwt.Guards()
    }

    /** The four own guards, then `argon2.validate()?`, then `jwt.validate()?`. */
    function Validate(): (r: Verdict)
      ensures r.Pass? <==> tokenExpiration > 0 && tokenCleanupInterval > 0 && maxSessions > 0
                           && sessionCacheTtl > 0 && argon2.Validate().Pass? && jwt.Validate().Pass?
    {
      ChainThree(FirstFiring(Guards()), argon2.Validate(), jwt.Validate());
      Chain([FirstFiring(Guards()), argon2.Validate(), jwt.Validate()])
    }
  }

  /**
   * The nested checks behave as one flat guard chain over every guard of the
   * section in source order: the error is the first firing guard of all twelve.
   */
  lemma AuthConfigIsOneChain(c: AuthConfig)
    ensures c.Validate() == FirstFiring(c.AllGuards())
  {
    ChainThreeFlat(c.Guards(), c.argon2.Guards(), c.jwt.Guards());
    ChainThree(FirstFiring(c.Guards()), c.argon2.Validate(), c.jwt.Validate());
  }

  /** The message names the first zero parameter, in declaration order. */
  lemma Argon2NamesFirstZero(c: Argon2Config)
    ensures c.memoryCost == 0 ==> c.Validate() == Fail(ValidationError(MemoryCostMessage))
    ensures c.memoryCost > 0 && c.timeCost == 0 ==> c.Validate() == Fail(ValidationError(TimeCostMessage))
    ensures c.memoryCost > 0 && c.timeCost > 0 && c.parallelism == 0
      ==> c.Validate() == Fail(ValidationError(ParallelismMessage))
    ensures c.memoryCost > 0 && c.timeCost > 0 && c.parallelism > 0 && c.hashLength == 0
      ==> c.Validate() == Fail(ValidationError(HashLengthMessage))
    ensures c.memoryCost > 0 && c.timeCost > 0 && c.parallelism > 0 && c.hashLength > 0 && c.saltLength == 0
      ==> c.Validate() == Fail(ValidationError(SaltLengthMessage))
  {
    var g := c.Guards();
    var k := if c.memoryCost == 0 then 0 else if c.timeCost == 0 then 1
             else if c.parallelism == 0 then 2 else if c.hashLength == 0 then 3 else 4;
    if g[k].fires {
      FirstFiringAt(g, k);
    }
  }

  const DefaultArgon2Config := Argon2Config(65536, 3, 4, 32, 16)

  const DefaultJwtConfig := JwtConfig(false, "", HS256, "lighter-auth", "lighter-api")

  const DefaultAuthConfig :=
    AuthConfig(3600, 900, 5, 300, Argon2, DefaultArgon2Config, DefaultJwtConfig)

  /** The defaults validate, although the JWT secret is empty: JWT is off by default. */
  lemma DefaultsValidate()
    ensures DefaultArgon2Config.Validate().Pass?
    ensures DefaultJwtConfig.Validate().Pass? && DefaultJwtConfig.secret == ""
    ensures DefaultAuthConfig.Validate().Pass?
  {
  }

  /** Enabling JWT without a secret is rejected with the secret message, and a secret fixes it. */
  lemma JwtNeedsSecretWhenEnabled(c: JwtConfig)
    requires c.enabled && c.secret == ""
    ensures c.Validate() == Fail(ValidationError(JwtSecretMessage))
    ensures c.issuer != "" && c.audience != "" ==> c.(secret := "s").Validate().Pass?
  {
  }
}

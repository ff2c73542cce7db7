# lighter-auth, modelled in Dafny

lighter-auth is an authentication and authorisation service written in Rust on actix-web and sea_orm. This project models its logic core and proves properties of it:

- **Cache layer** (`Cache`, `Local`, `Redis`, `Null`, `Hybrid`). It covers:
  - the statistics record and its hit-rate rule, and the cache-key builders;
  - the in-memory cache, with lazy expiry, a periodic sweep and hit/miss/eviction counters;
  - the Redis cache, with its `name:` key namespace, over a shared Redis key space;
  - the no-op cache;
  - the two-level cache, which reads L1 and then L2, backfills L1, and writes L2 best effort.

  Stateful backends are classes whose methods change their fields. Each method is specified against functions that are proved to keep the source's promises.
- **Circuit breaker** (`Breaker`). The Closed/Open/HalfOpen machine with its counters, thresholds and timeout. `CircuitBreaker.Call` is one step of the machine, specified by the transition function `Step`. It takes the two clock readings of the source as parameters: `now`, read when the call is admitted, and `doneAt`, read by `record_failure` after the operation has finished. The two may differ, and the source does not require the clock to run forward. Lemmas prove the transitions that the unit tests of `circuit_breaker.rs` pin down, and the invariant that the counters keep.
- **Input validators** (`Validation`). Email, username, password, UUID-v4 and length checks, and the HTML-escaping sanitiser.
  - Each regex is modelled twice: as a matcher, and as the language it denotes. A lemma proves the two agree.
  - The sanitiser is proved to leave no dangerous character. For input without NUL and without surrounding whitespace, unescaping the sanitised text gives the input back.
- **Configuration rules** (`Configs`, `ConfigAuth`, `ConfigSecurity`, `ConfigResilience`, `ConfigApp`). The defaults and every `validate` guard chain. Each section is proved both to pass exactly when its rules hold and to report the first firing guard in source order.
- **Security headers** (`Headers`). The header-insertion body of the middleware, over a header map. It is proved that:
  - only the seven security headers change;
  - each gets its table value;
  - every inserted value is a legal header value;
  - running the middleware twice equals running it once.
- **Token authentication** (`AuthSessions`, `AuthExtractor`, `Catalog`). It covers:
  - the in-memory map of authenticated principals;
  - the bearer-header checks of `Auth::from_request` and its cache/database decision;
  - the name/code normalisation;
  - the duplicate-code gate of the permission and role `store` services.

`Wrappers` holds `Option`, `Result` and `Outcome`. `Text` holds the string operations of Rust's standard library that the core relies on: byte length, `trim`, `trim_start_matches`, `replace`, ASCII case mapping and decimal formatting.

Time, randomness, the database and the network are parameters.
- `now` is in milliseconds for the caches and in Unix seconds for the circuit breaker.
- A fresh UUID is an argument.
- Database answers, the decoder of base58 tokens and the value codec are arguments. The codec stands for bincode.

## Model

| member | source | states |
|---|---|---|
| Cache.NewStats | src/cache/mod.rs:56-66 | a new statistics record has every counter at zero and a rate of 0 |
| Cache.HitRate | src/cache/mod.rs:68-76 | the rate lies in [0, 1], is 0 when nothing was looked up, and otherwise times (hits + misses) gives hits |
| Cache.CalculateHitRate | src/cache/mod.rs:68-76 | refreshing the rate keeps the four counters and leaves a rate that matches them |
| Cache.StatsOf | src/cache/local.rs:195-212 | a backend's statistics carry the given counters and size and a rate that matches them |
| Cache.HitRateExamples | src/cache/mod.rs:197-230 | 80 hits and 20 misses give 0.8; no lookups and all misses give 0; all hits give 1 |
| Cache.RateMatchesUnique | src/cache/mod.rs:68-76 | the rate is a function of the hit and miss counters |
| Cache.UserKey | src/cache/mod.rs:90-92 | the key is `user:` followed by the id, which reads back from the key |
| Cache.TokenKey | src/cache/mod.rs:95-97 | the key is `token:` followed by the id, which reads back from the key |
| Cache.PermissionKey | src/cache/mod.rs:100-102 | the key is `permission:` followed by the id, which reads back from the key |
| Cache.RoleKey | src/cache/mod.rs:105-107 | the key is `role:` followed by the id, which reads back from the key |
| Cache.SessionKey | src/cache/mod.rs:110-112 | the key is `session:` followed by the id, which reads back from the key |
| Cache.UserPermissionsKey | src/cache/mod.rs:115-117 | the key is the user key of the id followed by `:permissions` |
| Cache.UserRolesKey | src/cache/mod.rs:120-122 | the key is the user key of the id followed by `:roles` |
| Cache.CustomKey | src/cache/mod.rs:125-127 | the key is the prefix, one `:` and the caller's key, each readable back from its place |
| Cache.KeyBuildersInjective | src/cache/mod.rs:89-112 | each single-kind key builder is one-to-one, so a key determines its id |
| Cache.KeyKindsDisjoint | src/cache/mod.rs:89-112 | user, token, permission, role and session keys never coincide, whatever the ids |
| Cache.UserScopedKeysDisjoint | src/cache/mod.rs:89-122 | for ids without ':', a user key, a user's permissions key and a user's roles key are pairwise distinct |
| Cache.UserKeyCollision | src/cache/mod.rs:89-117 | without that restriction the user key of "x:permissions" is the permissions key of "x" |
| Cache.CustomKeyOverlapsBuiltins | src/cache/mod.rs:124-127 | a custom key with prefix "user", "token" or "session" equals that built-in kind's key |
| Cache.KeyExamples | src/cache/mod.rs:138-178 | the token, user-permissions, user-roles and custom keys of the unit tests |
| Local.NewEntry | src/cache/local.rs:21-33 | a new entry keeps its data, is live now iff the TTL is positive, and is expired at a later instant iff the TTL has elapsed |
| Local.Prune | src/cache/local.rs:90-102 | the sweep keeps exactly the unexpired entries, unchanged, so what the cache holds does not change |
| Local.Lookup | src/cache/local.rs:125-150 | a missing or expired key reads as nothing; a live entry gives its decoded value, or `DeserializeFailed` when it does not decode |
| Local.AfterRead | src/cache/local.rs:129-138 | a read drops the entry under its key exactly when it has expired, keeps every other entry and changes no answer |
| Local.PruneKeepsLive | src/cache/local.rs:87-102 | removing expired entries, by the sweep or by a read, never changes the live content; kept and expired keys partition the store |
| Local.ReadKeepsLookups | src/cache/local.rs:129-138 | the eviction a read performs does not change what any later get returns |
| Local.LiveShrinksOverTime | src/cache/local.rs:30-33 | what is live at a later instant was live earlier, with the same data |
| Local.SetThenLookup | src/cache/local.rs:125-167 | a value written with TTL d is read back before d has elapsed and is a miss afterwards |
| Local.SetKeepsOthers | src/cache/local.rs:152-167 | a write to one key leaves every other key's reading unchanged |
| Local.DeleteThenLookup | src/cache/local.rs:169-172 | a deleted key reads as a miss |
| Local.GetCountsOnce | src/cache/local.rs:125-150 | a successful get counts exactly one hit or miss, a hit iff a value is returned, an eviction iff the entry had expired; a failed decode counts nothing |
| Local.LocalCache.constructor | src/cache/local.rs:51-77 | a new cache is empty with all counters zero |
| Local.LocalCache.Get | src/cache/local.rs:125-150 | the result is the lookup in the live content; an expired entry is removed; the counters move as described in GetCountsOnce |
| Local.LocalCache.Set | src/cache/local.rs:152-167 | a value that does not encode fails and changes nothing; otherwise the key gets a new entry with expiry now + TTL; counters unchanged |
| Local.LocalCache.Delete | src/cache/local.rs:169-172 | the key is removed, present or not, and nothing else changes |
| Local.LocalCache.Exists | src/cache/local.rs:174-188 | true iff the key is live; an expired entry is removed and counted as one eviction |
| Local.LocalCache.Clear | src/cache/local.rs:190-193 | the store becomes empty and the counters are kept |
| Local.LocalCache.Stats | src/cache/local.rs:195-212 | the counters, the number of stored entries (expired ones not yet swept included) and a matching rate |
| Local.LocalCache.Sweep | src/cache/local.rs:84-104 | one cleanup tick removes exactly the expired entries and adds one eviction per removed key |
| Local.CollectExpired | src/cache/local.rs:90-97 | the collected keys are exactly the expired ones, each listed once |
| Local.SetThenGet | src/cache/local.rs:227-240 | on a cache, set followed by get with a positive TTL returns the value and counts one hit |
| Redis.RedisServer.constructor | src/cache/redis.rs:85-112 | a fresh Redis key space is empty |
| Redis.Fetch | src/cache/redis.rs:179-208 | an unreachable Redis is `StoreUnavailable`; otherwise a missing or expired key reads as nothing, a live one as its decoded value, or `DeserializeFailed` |
| Redis.SetOutcome | src/cache/redis.rs:211-231 | set as written succeeds iff the value encodes, Redis answers and the TTL is at least one second; a shorter TTL is `InvalidExpireTime`; an encoding failure comes first |
| Redis.SetExExpiry | src/cache/redis.rs:222-227 | SETEX with the TTL truncated to whole seconds expires no later than the TTL, and less than a second early |
| Redis.SubSecondTtlRejected | src/cache/redis.rs:222-227 | a TTL under one second makes set fail although the value encodes and Redis is up |
| Redis.SetOutcomeVersusMillis | src/cache/redis.rs:210-231 | set as written succeeds iff the millisecond form succeeds and the TTL is at least one second |
| Redis.SetMillisOutcome | src/cache/redis.rs:210-231 | with millisecond expiry, set succeeds iff the value encodes, Redis answers and the TTL is positive |
| Redis.MillisMatchesLocal | src/cache/redis.rs:179-231 | with millisecond expiry a value is read back exactly as long as the in-memory cache would keep it |
| Redis.SetExThenFetch | src/cache/redis.rs:179-231 | after a successful set as written, get returns the value until the truncated expiry and a miss afterwards |
| Redis.PrefixesSeparate | src/cache/redis.rs:154-157 | keys built under two prefixes neither of which extends the other never meet, and one never lists under the other |
| Redis.NamesGiveSeparatePrefixes | src/cache/redis.rs:104-111 | two distinct names without ':' give "name:" prefixes neither of which extends the other |
| Redis.NamespacesIsolated | src/cache/redis.rs:154-157 | two caches with distinct names without ':' share no key, and one's KEYS pattern never matches the other's keys |
| Redis.NestedNamesCollide | src/cache/redis.rs:154-157 | names "a" and "a:b" do collide: "a:" + "b:x" is "a:b:" + "x" |
| Redis.ClearEmptiesNamespace | src/cache/redis.rs:265-292 | after clearing, no live key is left under the prefix and every key outside the prefix reads as before |
| Redis.RedisCache.constructor | src/cache/redis.rs:104-111 | the prefix is the name followed by ':' and the counters start at zero |
| Redis.RedisCache.BuildKey | src/cache/redis.rs:154-157 | the full key starts with the prefix and the caller's key follows it unchanged |
| Redis.RedisCache.Get | src/cache/redis.rs:179-208 | an unreachable Redis or a failed decode is an error that counts nothing; otherwise a hit with the value or a counted miss |
| Redis.RedisCache.Set | src/cache/redis.rs:211-231 | encode, then store the prefixed key expiring exactly `ttl` after now (the corrected form, see Findings): an encoding failure, an unreachable Redis or a zero TTL is an error that stores nothing; the counters never change |
| Redis.RedisCache.Delete | src/cache/redis.rs:234-249 | DEL removes the key; a key that was live adds one eviction; an unreachable Redis changes nothing |
| Redis.RedisCache.Exists | src/cache/redis.rs:252-262 | true iff the prefixed key is live; an error when Redis does not answer |
| Redis.RedisCache.Clear | src/cache/redis.rs:265-292 | removes exactly the live keys under the prefix and counts each as an eviction |
| Redis.RedisCache.Stats | src/cache/redis.rs:295-322 | the counters, the number of live keys under the prefix and a matching rate |
| Redis.SharedKeyIsolation | src/cache/redis.rs:513-533 | caches "app1" and "app2" on one Redis write the same key and each reads back its own value |
| Null.NullCache.Get | src/cache/null.rs:81-86 | get always answers a miss |
| Null.NullCache.Set | src/cache/null.rs:91-96 | set always succeeds and stores nothing |
| Null.NullCache.Delete | src/cache/null.rs:101-103 | delete always succeeds |
| Null.NullCache.Exists | src/cache/null.rs:108-110 | exists is always false |
| Null.NullCache.Clear | src/cache/null.rs:115-117 | clear always succeeds |
| Null.NullCache.Stats | src/cache/null.rs:122-124 | the statistics are all zero |
| Hybrid.GetOutcome | src/cache/hybrid.rs:115-158 | get never fails; an L1 hit is returned as is, otherwise an L2 hit; the answer is a hit iff one of the layers had the value |
| Hybrid.CombineStats | src/cache/hybrid.rs:268-284 | the combined counters and sizes are the sums of the layers' and the rate matches the sums |
| Hybrid.CombinedRateBetween | src/cache/hybrid.rs:274-283 | the combined hit rate lies between the two layers' rates |
| Hybrid.WeightedMeanBetween | src/cache/hybrid.rs:274-283 | a positively weighted mean of two rates lies between them |
| Hybrid.ErrorsReadAsMisses | src/cache/hybrid.rs:119-157 | an error from either layer gives the same answer as a miss there, and an L2 miss the same answer as having no L2 |
| Hybrid.HybridCache.constructor | src/cache/hybrid.rs:75-77 | the cache is built from the given L1 and optional L2 |
| Hybrid.HybridCache.LocalOnly | src/cache/hybrid.rs:90-95 | a cache with a fresh empty L1 and no L2 |
| Hybrid.HybridCache.Get | src/cache/hybrid.rs:115-158 | L1 is read first; L2 only on an L1 miss or error; an L2 hit is copied into L1 for 300 seconds; both layers' counters move as their own get moves them |
| Hybrid.HybridCache.Set | src/cache/hybrid.rs:161-182 | an L1 encode failure is returned and nothing is written; otherwise L1 gets the entry and L2 is written best effort, its failure ignored |
| Hybrid.HybridCache.Delete | src/cache/hybrid.rs:185-203 | the key leaves L1, and leaves L2 when Redis answers; never fails |
| Hybrid.HybridCache.Exists | src/cache/hybrid.rs:206-239 | true iff the key is live in L1, or live in an answering L2; an L2 failure reads as false |
| Hybrid.HybridCache.Clear | src/cache/hybrid.rs:242-260 | L1 is emptied and, when Redis answers, L2's namespace is cleared; never fails |
| Hybrid.HybridCache.Stats | src/cache/hybrid.rs:263-293 | L1's statistics, combined with L2's when L2 answers |
| Hybrid.WorksWithoutRedis | src/cache/hybrid.rs:551-586 | with Redis unreachable, a value written is still read back from L1 |
| Breaker.DefaultConfig | src/resilience/circuit_breaker.rs:177-185 | the default breaker opens after 5 failures, closes after 2 successes and waits 60 seconds |
| Breaker.SecondsSinceLastFailure | src/resilience/circuit_breaker.rs:151-163 | u64::MAX when no failure is recorded; otherwise the elapsed seconds, saturating at 0 when the clock is behind the failure time |
| Breaker.Rejects | src/resilience/circuit_breaker.rs:340-362 | only an Open breaker refuses, and it does so iff fewer than `timeout` seconds passed since the failure; a clock behind the failure time counts as none; without a failure time it refuses only for a timeout above u64::MAX |
| Breaker.RecordSuccess | src/resilience/circuit_breaker.rs:110-114 | one more call and one more consecutive success; the failure streak is cleared; nothing else changes |
| Breaker.RecordFailure | src/resilience/circuit_breaker.rs:117-128 | one more call, failure and consecutive failure; the success streak is cleared; the failure time is the clock read by `record_failure` itself |
| Breaker.AfterCall | src/resilience/circuit_breaker.rs:364-425 | an admitted call counts once; a success clears the failure streak, a failure clears the success streak and records the completion time; a failure opens a HalfOpen breaker and a Closed one at the threshold; a success closes a HalfOpen one at its threshold, or an Open one whose timeout elapsed |
| Breaker.Step | src/resilience/circuit_breaker.rs:332-427 | a refused attempt changes nothing; an admitted one counts one call, a failure iff it fails, and a failure records the completion time |
| Breaker.FailureRate | src/resilience/circuit_breaker.rs:295-301 | the rate is in [0, 1], 0 before any call, and times the calls gives the failures |
| Breaker.StepKeepsInv | src/resilience/circuit_breaker.rs:332-427 | every call, admitted or refused, keeps the streaks exclusive, the counters ordered and an Open breaker's failure streak positive |
| Breaker.RunKeepsInv | src/resilience/circuit_breaker.rs:332-427 | any sequence of calls keeps that invariant |
| Breaker.RefusalChangesNothing | src/resilience/circuit_breaker.rs:340-362 | a refused call changes nothing; only an Open breaker refuses; an admitted call counts once |
| Breaker.OpenRefusesDuringTimeout | src/resilience/circuit_breaker.rs:341-359 | an Open breaker refuses iff fewer than `timeout` seconds have passed since the last failure (a clock behind it counts as none) |
| Breaker.OpenWithoutFailureTimeAdmits | src/resilience/circuit_breaker.rs:151-155 | an Open breaker without a recorded failure time lets the next call through |
| Breaker.SuccessClearsFailureStreak | src/resilience/circuit_breaker.rs:366-386 | an admitted success clears the failure streak and never leaves the breaker Open |
| Breaker.ProbeFailureReopens | src/resilience/circuit_breaker.rs:410-418 | a failure in HalfOpen, or in Open once the timeout elapsed, opens the breaker and records the time the failed operation finished |
| Breaker.FailuresOpenAtThreshold | src/resilience/circuit_breaker.rs:396-409 | from Closed, consecutive failures keep it Closed and open it exactly when the streak reaches the failure threshold |
| Breaker.SuccessesCloseAtThreshold | src/resilience/circuit_breaker.rs:371-384 | from HalfOpen, consecutive successes keep it HalfOpen and close it exactly when the streak reaches the success threshold |
| Breaker.TimeoutAdmitsProbe | src/resilience/circuit_breaker.rs:341-353 | once the timeout elapsed an Open breaker admits a call in HalfOpen; a success closes it only if the threshold is at most 1 |
| Breaker.TimeoutRunsFromCompletion | src/resilience/circuit_breaker.rs:117-128 | a failure that opens the breaker starts the timeout when the operation finished, not when it was admitted |
| Breaker.ThreeFailuresOpen | src/resilience/circuit_breaker.rs:508-524 | three failures with threshold three open a new breaker and count three failures |
| Breaker.FailureRateExample | src/resilience/circuit_breaker.rs:655-672 | two failures in five calls is a rate of 0.4 |
| Breaker.CircuitBreaker.WithConfig | src/resilience/circuit_breaker.rs:256-263 | a new breaker with the given configuration is Closed with all counters zero |
| Breaker.CircuitBreaker.constructor | src/resilience/circuit_breaker.rs:238-240 | a new breaker with the default configuration is Closed with all counters zero |
| Breaker.CircuitBreaker.Call | src/resilience/circuit_breaker.rs:332-427 | refused with the breaker's name while Open within the timeout at admission; otherwise the outcome is recorded, a failure at the clock read after the operation finished, the state moves by the transition rules and the outcome is returned, its error wrapped |
| Breaker.CircuitBreaker.Reset | src/resilience/circuit_breaker.rs:433-441 | back to Closed with every statistic kept |
| Breaker.CircuitBreaker.Rate | src/resilience/circuit_breaker.rs:295-301 | the failure rate of the breaker's counters, in [0, 1] |
| Breaker.ResetKeepsFailureStreak | src/resilience/circuit_breaker.rs:433-441 | since the failure streak survives a reset, a breaker reset at the threshold opens again on its next failure |
| Validation.Split | src/security/validation.rs:9-11 | the pieces between separators hold no separator and joined back give the input |
| Validation.SplitJoin | src/security/validation.rs:9-11 | splitting undoes joining when no piece holds the separator |
| Validation.EmailMatcherExact | src/security/validation.rs:6-12 | the executable matcher accepts exactly the language of the email pattern: a non-empty local part, '@', and two or more labels of 1 to 63 characters, alphanumeric at both ends, joined by dots |
| Validation.ValidateEmail | src/security/validation.rs:53-64 | accepted iff 1 to 255 bytes, no "..", and in the email pattern's language |
| Validation.ValidEmailStructure | src/security/validation.rs:53-64 | an accepted email has exactly one '@', neither first nor last, a dot after it, and only local-part characters besides |
| Validation.ShapedEmailValid | src/security/validation.rs:53-64 | every ASCII string of the pattern's shape, at most 255 long and without "..", is accepted |
| Validation.ShortestEmailValid | src/security/validation.rs:258 | "a@b.c" is accepted |
| Validation.TypicalEmailValid | src/security/validation.rs:254 | "user@example.com" is accepted |
| Validation.EmailEmptyOrDoubleDotInvalid | src/security/validation.rs:263-269 | the empty string and "user..name@example.com" are rejected |
| Validation.ValidateUsername | src/security/validation.rs:87-93 | accepted iff 3 to 32 characters, each a letter, digit, '_' or '-' |
| Validation.UsernameLengthBoundary | src/security/validation.rs:286-293 | "abc" is accepted and "ab" is not |
| Validation.ValidatePassword | src/security/validation.rs:122-156 | Ok iff every rule holds; otherwise the messages of exactly the broken rules, in rule order |
| Validation.CollectPasswordErrors | src/security/validation.rs:123-149 | the six checks push exactly the messages of the broken rules, in order |
| Validation.PasswordVerdict | src/security/validation.rs:151-155 | no message is collected iff every rule holds |
| Validation.BrokenMembers | src/security/validation.rs:125-149 | a rule is reported iff it is checked and broken |
| Validation.ReportInRuleOrder | src/security/validation.rs:125-149 | the report is the concatenation of the six rules' reports in source order |
| Validation.AtMostFiveErrors | src/security/validation.rs:126-132 | the two length rules never fail together, so at most five messages come back |
| Validation.MinimalPasswordAccepted | src/security/validation.rs:307 | "Abcdefg1!" keeps every rule |
| Validation.ShortLowercaseOnly | src/security/validation.rs:122-156 | a short all-lowercase password gets exactly the length, uppercase, digit and special-character messages |
| Validation.WeakPasswordBreaksFour | src/security/validation.rs:361-367 | "weak" gets exactly those four messages |
| Validation.UuidPositional | src/security/validation.rs:19-23 | the position-by-position check accepts exactly the language of the UUID v4 pattern |
| Validation.ValidateUuid | src/security/validation.rs:174-176 | accepted iff the string is in the UUID v4 pattern's language |
| Validation.UuidExamples | src/security/validation.rs:370-393 | the version-4 example is accepted; the version-3, unhyphenated and empty ones are not |
| Validation.ChainIsSinglePass | src/security/validation.rs:206-214 | the chain of replace calls equals escaping each character once, since no replacement contains a later step's character |
| Validation.EscapesWellOrdered | src/security/validation.rs:208-214 | the six escapes start with '&', do not reintroduce later characters and are prefix-free |
| Validation.EscapeAll | src/security/validation.rs:208-214 | the single-pass escape never shortens the text when every replacement is non-empty and keeps each character that has no escape; ReplaceAll equals it on well-ordered tables |
| Validation.UnescapeEscapeAll | src/security/validation.rs:206-214 | decoding the entities undoes escaping |
| Validation.Sanitize | src/security/validation.rs:202-221 | the output holds no '<', '>', '"', ''', '/' or NUL, and is the NUL-free input escaped once and trimmed |
| Validation.EscapesAreSafe | src/security/validation.rs:206-214 | escaping removes every markup character and adds no NUL |
| Validation.SanitizeRoundTrip | src/security/validation.rs:202-221 | for input without NUL or surrounding whitespace, decoding the sanitized text gives the input back |
| Validation.CleanInputUnchanged | src/security/validation.rs:407-410 | text with nothing to escape or trim comes back unchanged |
| Validation.AmpersandEscaped | src/security/validation.rs:208-209 | an ampersand before letters, digits and ';' is escaped and the rest kept |
| Validation.SanitizeEscapesTwice | src/security/validation.rs:202-221 | sanitizing is not idempotent: a second pass escapes the '&' of an entity the first produced |
| Validation.ValidateLength | src/security/validation.rs:241-244 | accepted iff the byte length lies in [min, max]; for ASCII that is the character count |
| Validation.LengthCountsBytes | src/security/validation.rs:510-515 | the edge cases of the unit tests hold, and one two-byte character exceeds a maximum of 1 |
| Configs.FirstFiring | src/config/auth.rs:214-233 | a chain of early returns passes iff no guard fires, and otherwise fails with the message of the first guard that fires |
| Configs.Chain | src/config/auth.rs:207-211 | sections checked with `?` in sequence pass iff all pass, and otherwise return the first failure unchanged |
| Configs.FirstFiringAt | src/config/auth.rs:214-233 | a guard that fires after only quiet ones decides the verdict |
| Configs.FirstFiringAppend | src/config/auth.rs:194-248 | two guard chains run one after the other behave as one chain over all their guards |
| Configs.ChainThreeFlat | src/config/auth.rs:194-212 | three chains checked with `?` in sequence are one chain over their guards in source order |
| ConfigAuth.Argon2Config.Validate | src/config/auth.rs:214-233 | fails iff some Argon2 parameter is zero |
| ConfigAuth.JwtConfig.Validate | src/config/auth.rs:235-248 | passes iff the secret is set whenever JWT is enabled, and issuer and audience are non-empty |
| ConfigAuth.AuthConfig.Validate | src/config/auth.rs:194-212 | passes iff the four lifetimes and limits are positive and both nested sections pass |
| ConfigAuth.AuthConfigIsOneChain | src/config/auth.rs:194-248 | the section's verdict is the first firing guard among all twelve, in source order |
| ConfigAuth.Argon2NamesFirstZero | src/config/auth.rs:214-233 | the message names the first zero parameter in declaration order |
| ConfigAuth.DefaultsValidate | src/config/auth.rs:94-192 | the defaults validate although the JWT secret is empty, because JWT is off by default |
| ConfigAuth.JwtNeedsSecretWhenEnabled | src/config/auth.rs:311-329 | enabling JWT without a secret fails with the secret message; with a secret it passes |
| ConfigSecurity.CorsConfig.Validate | src/config/security.rs:205-215 | passes iff origins are non-empty when CORS is enabled and the max-age is positive whether or not it is |
| ConfigSecurity.RateLimitConfig.Validate | src/config/security.rs:217-227 | passes iff a disabled limiter, or an enabled one with positive requests and window; the burst size is never checked |
| ConfigSecurity.SecurityHeadersConfig.Validate | src/config/security.rs:229-239 | passes iff the CSP is non-empty when headers are enabled and the HSTS max-age is positive in either case |
| ConfigSecurity.SecurityConfig.Validate | src/config/security.rs:196-203 | passes iff CORS, rate limiting and headers all pass |
| ConfigSecurity.SecurityConfigIsOneChain | src/config/security.rs:196-239 | the section's error is the first firing guard of its six, in source order |
| ConfigSecurity.DefaultsValidate | src/config/security.rs:83-194 | the defaults (five methods, two headers, everything enabled) validate |
| ConfigResilience.CircuitBreakerConfig.Validate | src/config/resilience.rs:143-156 | passes iff disabled, or threshold, timeout and success threshold are all positive |
| ConfigResilience.RetryConfig.Validate | src/config/resilience.rs:158-177 | passes iff disabled, or attempts positive, 0 < initial delay <= max delay and multiplier > 0 |
| ConfigResilience.ResilienceConfig.Validate | src/config/resilience.rs:135-141 | passes iff both sections pass, and a circuit-breaker failure is reported unchanged |
| ConfigResilience.ResilienceConfigIsOneChain | src/config/resilience.rs:135-177 | the section's error is the first firing guard of its eight, in source order |
| ConfigResilience.RetryDelayMessages | src/config/resilience.rs:164-172 | a zero initial delay reports the zero-delay message and not the ordering one; delays out of order report the ordering message |
| ConfigResilience.DefaultsValidate | src/config/resilience.rs:69-133 | the defaults validate |
| ConfigApp.AppMetadata.Validate | src/config/app.rs:114-130 | passes iff name, version and environment are non-empty and the shutdown timeout is positive |
| ConfigApp.ApiConfig.Validate | src/config/app.rs:132-142 | passes iff the version is non-empty and the Swagger path is non-empty when Swagger is enabled |
| ConfigApp.AppConfig.Validate | src/config/app.rs:144-160 | passes iff all eleven sections pass |
| ConfigApp.AppMetadataNamesFirstProblem | src/config/app.rs:114-130 | the message names the first empty or zero field in declaration order |
| ConfigApp.DefaultAppMetadata | src/config/app.rs:64-102 | the default version is the package version, and the default metadata validates iff that version is non-empty |
| ConfigApp.DefaultsValidate | src/config/app.rs:162-178 | the default configuration validates exactly when the shared crate's default sections do |
| Text.ByteLen | src/security/validation.rs:241-244 | the UTF-8 length of a string is between its character count and four times that |
| Text.AsciiByteLen | src/security/validation.rs:241-244 | on ASCII text the byte length is the character count |
| Text.ByteLenAppend | src/security/validation.rs:241-244 | the byte length of a concatenation is the sum of the byte lengths |
| Text.Trim | src/security/validation.rs:220 | `trim` yields the slice of its input left after cutting only whitespace from both ends, and it neither starts nor ends with whitespace |
| Text.TrimOfTrimmed | src/security/validation.rs:220 | trimming a string without surrounding whitespace changes nothing |
| Text.TrimStartMatches | src/middlewares/v1/auth/internal.rs:91 | the input is some number of copies of the pattern followed by the result, and the result no longer starts with the pattern |
| Text.Replace | src/services/v1/permission/store.rs:26 | after replacing a character by a string not containing it, the character is gone; with a one-character replacement the length is kept and each position holds the replacement exactly where the character was |
| Text.ReplaceAppend | src/services/v1/permission/store.rs:26 | replacement distributes over concatenation |
| Text.Lower | src/services/v1/permission/store.rs:25 | lower-casing keeps the length and maps each character on its own |
| Text.Upper | src/services/v1/permission/store.rs:26 | upper-casing keeps the length and maps each character on its own |
| Text.DecimalRoundTrip | src/security/headers.rs:178-181 | the decimal text of a number reads back as that number, with no leading zero except for 0 |
| Headers.ApplyElsewhere | src/security/headers.rs:166-174 | one `insert` step leaves every other header name and its values alone |
| Headers.ApplyHere | src/security/headers.rs:166-174 | one `insert` step sets its header to exactly the table value, or leaves it alone when the table has none |
| Headers.Inserted | src/security/headers.rs:166-244 | a header is left alone exactly when it is CSP, X-Frame-Options, X-Content-Type-Options or Referrer-Policy configured empty |
| Headers.Secured | src/security/headers.rs:160-244 | after the middleware each security header holds exactly its table value when it has one, and every other header, present or not, is as before |
| Headers.Response.constructor | src/security/headers.rs:153 | a response starts with the status and headers the inner service produced |
| Headers.Response.Insert | src/security/headers.rs:166-174 | `insert` replaces all values of its name by the one value and changes nothing else |
| Headers.Response.AddSecurityHeaders | src/security/headers.rs:152-247 | a disabled configuration leaves the headers as they were; an enabled one yields the secured map; the status is never changed |
| Headers.ValueOrLegal | src/security/headers.rs:168-171 | the value used is always legal, and it is the configured one exactly when that is legal (or equals the fallback) |
| Headers.HeaderValueAppend | src/security/headers.rs:178-181 | concatenating legal header values gives a legal value |
| Headers.DigitsAreHeaderValue | src/security/headers.rs:178-181 | decimal digits form a legal header value |
| Headers.HstsIsConfiguredValue | src/security/headers.rs:178-190 | the HSTS value is always legal, so its fallback is never used, and it carries the configured seconds in decimal |
| Headers.InsertedValuesLegal | src/security/headers.rs:166-244 | every inserted value is a legal header value |
| Headers.IllegalValueFallsBack | src/security/headers.rs:168-171 | a CSP containing a control character is replaced by `default-src 'self'` |
| Headers.SecuredIdempotent | src/security/headers.rs:160-244 | running the middleware twice gives the same headers as running it once |
| Headers.DefaultHstsValue | src/security/headers.rs:178-190 | the default one-year lifetime gives exactly the fallback directive |
| Headers.DefaultConfigValues | src/security/headers.rs:282-351 | the default configuration inserts the documented value of each header |
| Headers.DefaultConfigInsertsAll | src/security/headers.rs:257-278 | the default configuration leaves all seven headers set, whatever the response carried |
| Headers.EmptyCspNotAdded | src/security/headers.rs:530-553 | with an empty CSP the CSP header is left as it was and the HSTS header is still set |
| Catalog.NormalName | src/services/v1/permission/store.rs:25 | the stored name is the lower case of the request name with only whitespace cut from its two ends; none is left at either end and no upper-case ASCII letter remains |
| Catalog.CodeOf | src/services/v1/permission/store.rs:26 | the code has the name's length; each space becomes `_` and each other character its upper case, so no space and no lower-case ASCII letter remain |
| Catalog.RequestCode | src/services/v1/permission/store.rs:25-26 | the code of a request is its normal name upper-cased character by character with each space turned into `_`; so `_` stands exactly where the name has a space or an underscore |
| Catalog.NormalNameIdempotent | src/services/v1/permission/store.rs:25 | normalising a stored name again changes nothing |
| Catalog.CodeIdempotent | src/models/v1/role/mod.rs:21 | re-normalising a code inside `code_exist` is a no-op |
| Catalog.TwoWordNormalisation | src/services/v1/permission/store.rs:25-26 | two words of letters become both words lower-cased with the space kept, and a code of both words upper-cased joined by `_` |
| Catalog.ExampleNormalisation | tests/integration/permissions_test.rs:926-936 | "Test Permission" is stored as "test permission" with code "TEST_PERMISSION" |
| Catalog.Table.constructor | src/models/v1/role/mod.rs:35-37 | a table holds the rows it is given |
| Catalog.Table.CodeExist | src/models/v1/role/mod.rs:20-33 | true iff the query succeeds and some row has the normalised code; a failing query reads as false |
| Catalog.Table.Insert | src/models/v1/role/mod.rs:35-37 | the insert succeeds iff the database works and the code is new; then the row is appended, otherwise nothing changes; unique codes stay unique |
| Catalog.Table.Store | src/services/v1/role/store.rs:9-45 | an invalid request is refused first; a taken code is refused; a failed existence query on a taken code, or a failed insert on a free one, gives StoreFailed; on success the row holds the fresh id, the code and the normalised name and is the only change; unique codes stay unique |
| AuthSessions.Authenticated.constructor | src/middlewares/v1/auth/authenticated.rs:14-25 | a new store is empty |
| AuthSessions.Authenticated.Get | src/middlewares/v1/auth/authenticated.rs:27-29 | returns the entry of the id iff there is one |
| AuthSessions.Authenticated.Set | src/middlewares/v1/auth/authenticated.rs:31-33 | stores the entry under the id, replacing any earlier one, and changes nothing else |
| AuthSessions.Authenticated.Remove | src/middlewares/v1/auth/authenticated.rs:35-37 | drops the id and nothing else |
| AuthSessions.Authenticated.RemoveDelay | src/middlewares/v1/auth/authenticated.rs:39-47 | leaves the entries alone now and schedules the removal of the id after the delay |
| AuthSessions.GetAfterSet | src/middlewares/v1/auth/authenticated.rs:27-33 | after `set` the id reads back its entry and every other id reads as before |
| AuthSessions.SetOverwrites | src/middlewares/v1/auth/authenticated.rs:31-33 | a second `set` of the same id overwrites the first |
| AuthSessions.GetAfterRemove | src/middlewares/v1/auth/authenticated.rs:27-37 | after `remove` the id reads as absent and every other id reads as before |
| AuthExtractor.HeaderToStr | src/middlewares/v1/auth/internal.rs:71-81 | the header converts iff every byte is visible ASCII or tab, and then each character is its byte |
| AuthExtractor.TokenText | src/middlewares/v1/auth/internal.rs:91 | the token is the header after some number of leading `Bearer ` prefixes, and no longer starts with one |
| AuthExtractor.TokenId | src/middlewares/v1/auth/internal.rs:38-114 | succeeds iff the app data is there, the header is present, readable, starts with `Bearer ` and decodes to sixteen bytes; missing app data is a server error, everything else a bad request |
| AuthExtractor.Decide | src/middlewares/v1/auth/internal.rs:116-202 | database errors change nothing; a missing or expired token is refused and evicted; a live token is served from the cache when cached; a miss builds the principal from the token row, caches it and schedules its removal after five minutes |
| AuthExtractor.Resolve | src/middlewares/v1/auth/internal.rs:116-202 | the future's result and the cache after it are those `Decide` states |
| AuthExtractor.FromRequest | src/middlewares/v1/auth/internal.rs:35-203 | a failed synchronous check is returned and leaves the cache alone; otherwise the result is the decision for the decoded id |
| AuthExtractor.EmptyHeaderIsBadRequest | tests/integration/auth_flow.rs:340-356 | an empty Authorization header is a bad request for a missing `Bearer ` prefix |
| AuthExtractor.NonBearerIsBadRequest | tests/integration/auth_flow.rs:358-375 | a header without the `Bearer ` prefix is a bad request |
| AuthExtractor.RepeatedPrefix | src/middlewares/v1/auth/internal.rs:91 | `trim_start_matches` strips every leading `Bearer `, so a repeated prefix changes nothing |
| AuthExtractor.TokenAfterPrefix | src/middlewares/v1/auth/internal.rs:91 | a token that does not itself start with the prefix is recovered exactly |
| AuthExtractor.PrefixesRemoved | src/middlewares/v1/auth/internal.rs:91 | any number of `Bearer ` prefixes before a token that does not start with one are all removed |
| AuthExtractor.MissStoresUnderTokenId | src/middlewares/v1/auth/internal.rs:176-201 | on a miss the principal carries the token's id and user and is cached under that id |
| AuthExtractor.HitNeedsLiveToken | src/middlewares/v1/auth/internal.rs:133-174 | a cached principal is returned iff the database finds the token unexpired; a deleted or expired token is evicted |

## Findings

| source | as written | input that shows it | evidently intended | confidence | as-written member | corrected member |
|---|---|---|---|---|---|---|
| src/cache/redis.rs:222-227 | `set` passes `ttl.as_secs()` to SETEX. The TTL is truncated to whole seconds, and Redis refuses a SETEX of 0 seconds. | `set(k, v, 100 ms)` on a reachable Redis sends SETEX with 0 seconds, so `set` returns an error. With 1500 ms the key expires after one second. | The key expires after the given `Duration`, with millisecond precision as in the in-memory cache (for example PSETEX with `ttl.as_millis()`). | medium; not executed | Redis.SubSecondTtlRejected | Redis.MillisMatchesLocal |

The as-written behaviour is `Redis.SetOutcome` and `Redis.SetExExpiry`; `Redis.SetExThenFetch` and `Redis.SetOutcomeVersusMillis` state it. `Redis.RedisCache.Set`, and through it `Hybrid.HybridCache.Set`, use the corrected millisecond expiry `Redis.SetMillisOutcome`.

## Left out

- Concurrency: DashMap sharding, atomics, `Mutex`/`RwLock`, and the tokio cleanup task and its abort on drop. Every operation is one sequential step, and the sweep is the explicit method `Local.LocalCache.Sweep`.
- The timer behind `remove_delay`: `AuthSessions.Authenticated.RemoveDelay` records the scheduled removal, and the removal itself is outside the model.
- Clocks: `Instant::now`, `SystemTime` and `now()` are the parameter `now`.
- Serialisation: bincode is an abstract `Codec` whose encode and decode may fail.
- The Redis connection, connection manager and timeouts. Redis is a shared key space with an availability flag. `KEYS prefix*` is a match on live keys starting with the prefix; glob metacharacters in a cache name are not interpreted.
- Floating point: the hit rate, failure rate and the retry multiplier are `real`. A NaN multiplier is not represented, so ConfigResilience.RetryConfig.Validate does not model that a NaN fails `multiplier <= 0.0` and is accepted.
- Integer widths: counters and configuration numbers are `nat`. u32/u64 overflow of the counters is not modelled, and `u64::MAX` appears only as the elapsed time when no failure was recorded.
- Breaker.CircuitBreaker.Call: the protected future is represented by the outcome it produces; its own side effects are not modelled.
- Regular expressions: each is modelled as a matcher proved equal to the language of that one pattern; the regex engine itself is not modelled.
- Catalog.NormalName, Text.Lower and Text.Upper: case mapping covers ASCII letters only. Rust's `to_lowercase`/`to_uppercase` also map non-ASCII letters, and some of those change length.
- The lighter_common configuration sections (server, database, cache, metrics, observability, health) are abstract: each is known only by the verdict of its own `validate`.
- `CARGO_PKG_VERSION` is the parameter `packageVersion` of `ConfigApp.DefaultAppMetadata`.
- `load_config` and `with_defaults` of the nested sections read files and the environment; only the default values are modelled.
- actix plumbing: the `Transform`/`Service` wrappers around the header logic. `HeaderName` is a datatype whose seven security names are distinct from every other name. `HeaderValue::from_str` is modelled by its accepted byte set.
- `base58::decode` from lighter_common is the parameter `decode` of `AuthExtractor.TokenId`.
- The database: token lookup, the related user rows, and the permissions and roles queries are parameters of `AuthExtractor.Decide`. The permission and role tables are `Catalog.Table`. A failing count query in `code_exist` reads as "no such code", and an insert can fail.
- `request.validate()` of the request DTOs is the boolean `requestValid` of `Catalog.Table.Store`; its rules are not part of this model.
- The permission model's `code_exist` (which also takes a metrics handle) is not part of this model. The permission store is taken to use the same check as the role model's `code_exist`, and metrics recording is left out.
- `Uuid::new_v4` randomness is the parameter `freshId`.
- AuthExtractor.Resolve: `internal.rs` matches `Result`s from `Authenticated::get`, `set`, `remove` and `remove_delay`, but `authenticated.rs` defines them infallible. The model follows `authenticated.rs`, so the error arms (log and continue) never run.
- AuthExtractor.Decide: the `unwrap` on a token row without a user is the error `Panicked` rather than a panic of the worker.
- Tracing, logging and Prometheus metrics have no observable effect on results and are omitted. So are the rate limiter (quota logic inside `governor`), password hashing (Argon2 library), the external auth client, controllers, router, migrations, entities and other ORM services.

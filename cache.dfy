/**
 * The shared vocabulary of the cache layer: the statistics record every
 * backend reports, the key builders, the errors a backend can return, and
 * the serialisation codec values pass through on their way into a store.
 */
module Cache {
  import opened Wrappers
  import opened Text

  type Byte = b: int | 0 <= b < 256
  type Bytes = seq<Byte>

  /** What a cache operation can fail with. */
  datatype CacheError =
    | SerializeFailed     // the value could not be encoded
    | DeserializeFailed   // the stored bytes do not decode to the requested type
    | StoreUnavailable    // the remote store could not be reached or refused the command
    | InvalidExpireTime   // the remote store refused a zero expiry

  /**
   * The serialiser in front of every store. `encode` may fail on a value
   * and `decode` may fail on bytes, as bincode does.
   */
  datatype Codec<!V> = Codec(encode: V -> Option<Bytes>, decode: Bytes -> Option<V>)

  /** The codec gives `v` back from whatever bytes it encoded `v` into. */
  ghost predicate RoundTripsOn<V>(c: Codec<V>, v: V) {
    c.encode(v).Some? ==> c.decode(c.encode(v).value) == Some(v)
  }

  /** Statistics as reported by `stats()`; the hit rate is a real in [0, 1]. */
  datatype CacheStats = CacheStats(hits: nat, misses: nat, evictions: nat, size: nat, hitRate: real)

  /** The hit rate agrees with the counters: hits / (hits + misses), or 0 when nothing was looked up. */
  predicate RateMatches(s: CacheStats) {
    if s.hits + s.misses == 0 then s.hitRate == 0.0
    else s.hitRate * (s.hits + s.misses) as real == s.hits as real
  }

  /** `CacheStats::new`: all counters zero. */
  function NewStats(): (s: CacheStats)
    ensures s.hits == 0 && s.misses == 0 && s.evictions == 0 && s.size == 0
    ensures RateMatches(s)
  {
    CacheStats(0, 0, 0, 0, 0.0)
  }

  /** The ratio `calculate_hit_rate` stores. */
  function HitRate(hits: nat, misses: nat): (r: real)
    ensures 0.0 <= r <= 1.0
    ensures hits + misses == 0 ==> r == 0.0
    ensures hits + misses > 0 ==> r * (hits + misses) as real == hits as real
  {
    if hits + misses > 0 then hits as real / (hits + misses) as real else 0.0
  }

  /** `calculate_hit_rate`: refreshes the rate and leaves every counter as it was. */
  function CalculateHitRate(s: CacheStats): (r: CacheStats)
    ensures r.hits == s.hits && r.misses == s.misses
    ensures r.evictions == s.evictions && r.size == s.size
    ensures RateMatches(r)
    ensures 0.0 <= r.hitRate <= 1.0
  {
    s.(hitRate := HitRate(s.hits, s.misses))
  }

  /** A statistics record built from counters, as every backend's `stats()` does. */
  function StatsOf(hits: nat, misses: nat, evictions: nat, size: nat): (s: CacheStats)
    ensures s.hits == hits && s.misses == misses && s.evictions == evictions && s.size == size
    ensures RateMatches(s)
  {
    CalculateHitRate(CacheStats(hits, misses, evictions, size, 0.0))
  }

  /** The rates the unit tests of the statistics record expect. */
  lemma HitRateExamples()
    ensures HitRate(80, 20) == 0.8
    ensures HitRate(0, 0) == 0.0
    ensures HitRate(0, 50) == 0.0
    ensures HitRate(7, 0) == 1.0
  {
  }

  /** The rate is determined by the counters: equal counters give equal rates. */
  lemma RateMatchesUnique(a: CacheStats, b: CacheStats)
    requires RateMatches(a) && RateMatches(b)
    requires a.hits == b.hits && a.misses == b.misses
    ensures a.hitRate == b.hitRate
  {
    if a.hits + a.misses > 0 {
      var t := (a.hits + a.misses) as real;
      assert a.hitRate * t == b.hitRate * t;
    }
  }

  // ---------------------------------------------------------------------
  // Key builders (`CacheKey`)
  // ---------------------------------------------------------------------

  // Each key is its kind's prefix followed by the id, which can be read
  // back from the key.

  function UserKey(id: string): (k: string)
    ensures |k| == 5 + |id| && k[..5] == "user:" && k[5..] == id
  {
    "user:" + id
  }

  function TokenKey(id: string): (k: string)
    ensures |k| == 6 + |id| && k[..6] == "token:" && k[6..] == id
  {
    "token:" + id
  }

  function PermissionKey(id: string): (k: string)
    ensures |k| == 11 + |id| && k[..11] == "permission:" && k[11..] == id
  {
    "permission:" + id
  }

  function RoleKey(id: string): (k: string)
    ensures |k| == 5 + |id| && k[..5] == "role:" && k[5..] == id
  {
    "role:" + id
  }

  function SessionKey(id: string): (k: string)
    ensures |k| == 8 + |id| && k[..8] == "session:" && k[8..] == id
  {
    "session:" + id
  }

  /** The user key followed by `:permissions`. */
  function UserPermissionsKey(userId: string): (k: string)
    ensures |k| == 5 + |userId| + 12
    ensures k[..5 + |userId|] == UserKey(userId) && k[5 + |userId|..] == ":permissions"
  {
    "user:" + userId + ":permissions"
  }

  /** The user key followed by `:roles`. */
  function UserRolesKey(userId: string): (k: string)
    ensures |k| == 5 + |userId| + 6
    ensures k[..5 + |userId|] == UserKey(userId) && k[5 + |userId|..] == ":roles"
  {
    "user:" + userId + ":roles"
  }

  /** The free-form prefix and key, joined by one ':'. */
  function CustomKey(prefix: string, key: string): (k: string)
    ensures |k| == |prefix| + 1 + |key|
    ensures k[..|prefix|] == prefix && k[|prefix|] == ':' && k[|prefix| + 1..] == key
  {
    prefix + ":" + key
  }

  /** The part of a key after its first `n` characters. */
  lemma {:induction false} SuffixAfter(p: string, s: string)
    ensures (p + s)[|p|..] == s
  {
  }

  /** Each single-kind builder is one-to-one: the key gives back the id. */
  lemma KeyBuildersInjective(a: string, b: string)
    ensures UserKey(a) == UserKey(b) ==> a == b
    ensures TokenKey(a) == TokenKey(b) ==> a == b
    ensures PermissionKey(a) == PermissionKey(b) ==> a == b
    ensures RoleKey(a) == RoleKey(b) ==> a == b
    ensures SessionKey(a) == SessionKey(b) ==> a == b
  {
    SuffixAfter("user:", a); SuffixAfter("user:", b);
    SuffixAfter("token:", a); SuffixAfter("token:", b);
    SuffixAfter("permission:", a); SuffixAfter("permission:", b);
    SuffixAfter("role:", a); SuffixAfter("role:", b);
    SuffixAfter("session:", a); SuffixAfter("session:", b);
  }

  /** Keys of different kinds never coincide, whatever the ids. */
  lemma KeyKindsDisjoint(a: string, b: string)
    ensures UserKey(a) != TokenKey(b) && UserKey(a) != PermissionKey(b)
    ensures UserKey(a) != RoleKey(b) && UserKey(a) != SessionKey(b)
    ensures TokenKey(a) != PermissionKey(b) && TokenKey(a) != RoleKey(b) && TokenKey(a) != SessionKey(b)
    ensures PermissionKey(a) != RoleKey(b) && PermissionKey(a) != SessionKey(b)
    ensures RoleKey(a) != SessionKey(b)
  {
    assert UserKey(a)[0] == 'u';
    assert TokenKey(b)[0] == 't' && TokenKey(a)[0] == 't';
    assert PermissionKey(b)[0] == 'p' && PermissionKey(a)[0] == 'p';
    assert RoleKey(b)[0] == 'r' && RoleKey(a)[0] == 'r';
    assert SessionKey(b)[0] == 's';
  }

  /**
   * The three per-user keys stay apart as long as ids have no ':' in them,
   * which holds for the UUIDs the service uses as user ids.
   */
  lemma UserScopedKeysDisjoint(a: string, b: string)
    requires ':' !in a && ':' !in b
    ensures UserKey(a) != UserPermissionsKey(b)
    ensures UserKey(a) != UserRolesKey(b)
    ensures UserPermissionsKey(a) != UserRolesKey(b)
  {
    var u, pa, pb, rb := UserKey(a), UserPermissionsKey(a), UserPermissionsKey(b), UserRolesKey(b);
    if |u| == |pb| {
      assert u[5 + |b|] == a[|b|] && pb[5 + |b|] == ':';
    }
    if |u| == |rb| {
      assert u[5 + |b|] == a[|b|] && rb[5 + |b|] == ':';
    }
    if |pa| == |rb| {
      assert pa[5 + |a|] == ':' && rb[5 + |a|] == b[|a|];
    }
  }

  /** Without that restriction a user key and a permission-list key can collide. */
  lemma UserKeyCollision()
    ensures UserKey("x:permissions") == UserPermissionsKey("x")
  {
  }

  /** `custom` with a built-in kind as prefix yields that kind's key. */
  lemma CustomKeyOverlapsBuiltins(id: string)
    ensures CustomKey("user", id) == UserKey(id)
    ensures CustomKey("token", id) == TokenKey(id)
    ensures CustomKey("session", id) == SessionKey(id)
  {
  }

  /** The keys the builders' unit tests expect. */
  lemma KeyExamples()
    ensures TokenKey("abc123") == "token:abc123"
    ensures UserPermissionsKey("user-123") == "user:user-123:permissions"
    ensures UserRolesKey("user-456") == "user:user-456:roles"
    ensures CustomKey("api", "rate-limit") == "api:rate-limit"
  {
    PermissionsKeyExample();
    RolesKeyExample();
  }

  // One literal per lemma keeps each evaluation small.
  lemma PermissionsKeyExample()
    ensures UserPermissionsKey("user-123") == "user:user-123:permissions"
  {
  }

  lemma RolesKeyExample()
    ensures UserRolesKey("user-456") == "user:user-456:roles"
  {
  }
}

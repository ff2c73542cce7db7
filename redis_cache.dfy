/**
 * The Redis-backed cache. A `RedisServer` object stands for the Redis
 * instance several caches may share: its key space (entries with an
 * expiry instant, in milliseconds) and whether it answers at all. Every
 * `RedisCache` prefixes its keys with `name + ":"` and keeps its own
 * counters. Expired keys are invisible to every command, as in Redis.
 */
module Redis {
  import opened Wrappers
  import opened Text
  import opened Cache
  import Local

  /** The shared Redis instance. `up == false` makes every command fail. */
  class RedisServer {
    var entries: map<string, Local.Entry>
    var up: bool

    constructor (up: bool)
      ensures entries == map[] && this.up == up
    {
      entries := map[];
      this.up := up;
    }
  }

  /** The keys `KEYS <prefix>*` lists: the live ones that start with the prefix. */
  function Matching(entries: map<string, Local.Entry>, prefix: string, now: nat): set<string> {
    set k | k in entries && !Local.Expired(entries[k], now) && StartsWith(k, prefix)
  }

  /**
   * What `GET` followed by decoding yields: `StoreUnavailable` when the
   * server cannot be reached; otherwise nothing for a missing or expired
   * key, the decoded value of a live one, `DeserializeFailed` when it does
   * not decode.
   */
  function Fetch<V>(entries: map<string, Local.Entry>, up: bool, fullKey: string, now: nat, codec: Codec<V>): (r: Result<Option<V>, CacheError>)
    ensures r == Err(StoreUnavailable) <==> !up
    ensures up ==> (r == Ok(None) <==> fullKey !in entries || Local.Expired(entries[fullKey], now))
    ensures up ==> (r == Err(DeserializeFailed) <==>
      fullKey in entries && !Local.Expired(entries[fullKey], now) && codec.decode(entries[fullKey].data).None?)
    ensures r.Ok? && r.value.Some? ==> fullKey in entries && codec.decode(entries[fullKey].data) == Some(r.value.value)
  {
    if !up then Err(StoreUnavailable) else Local.Lookup(entries, fullKey, now, codec)
  }

  /** How `get` moves the counters: a hit or a miss on an answer, nothing on an error. */
  function CountFetch<V>(c: Local.Counters, entries: map<string, Local.Entry>, up: bool, fullKey: string, now: nat, codec: Codec<V>): Local.Counters {
    match Fetch(entries, up, fullKey, now, codec)
    case Ok(Some(_)) => c.(hits := c.hits + 1)
    case Ok(None) => c.(misses := c.misses + 1)
    case Err(_) => c
  }

  /**
   * The outcome of `set` as written: encode, then `SETEX` with the TTL
   * truncated to whole seconds, which Redis refuses when it is zero.
   */
  function SetOutcome(up: bool, encoded: Option<Bytes>, ttl: nat): (r: Outcome<CacheError>)
    ensures r == Pass <==> encoded.Some? && up && ttl >= 1000
    ensures r == Fail(InvalidExpireTime) <==> encoded.Some? && up && ttl < 1000
    ensures r == Fail(SerializeFailed) <==> encoded.None?
  {
    if encoded.None? then Fail(SerializeFailed)
    else if !up then Fail(StoreUnavailable)
    else if ttl / 1000 == 0 then Fail(InvalidExpireTime)
    else Pass
  }

  /** The expiry instant `SETEX` gives: whole seconds only. */
  function SetExExpiry(ttl: nat, now: nat): (t: nat)
    ensures now <= t <= now + ttl
    ensures ttl >= 1000 ==> t > now + ttl - 1000
  {
    now + (ttl / 1000) * 1000
  }

  /**
   * The evidently intended `set`: stores with millisecond precision
   * (`PSETEX`), so that any positive TTL is accepted; Redis still refuses
   * a zero expiry.
   */
  function SetMillisOutcome(up: bool, encoded: Option<Bytes>, ttl: nat): (r: Outcome<CacheError>)
    ensures r.Pass? <==> encoded.Some? && up && ttl > 0
  {
    if encoded.None? then Fail(SerializeFailed)
    else if !up then Fail(StoreUnavailable)
    else if ttl == 0 then Fail(InvalidExpireTime)
    else Pass
  }

  // ---------------------------------------------------------------------
  // Properties of the specification functions
  // ---------------------------------------------------------------------

  /** A TTL under one second is refused by `set` as written, though the value encodes and Redis is up. */
  lemma SubSecondTtlRejected(d: Bytes)
    ensures SetOutcome(true, Some(d), 100) == Fail(InvalidExpireTime)
    ensures forall ttl: nat :: 0 < ttl < 1000 ==> SetOutcome(true, Some(d), ttl).Fail?
  {
  }

  /** `set` as written succeeds exactly when the corrected one does and the TTL is at least one second. */
  lemma SetOutcomeVersusMillis(up: bool, encoded: Option<Bytes>, ttl: nat)
    ensures SetOutcome(up, encoded, ttl).Pass? <==> SetMillisOutcome(up, encoded, ttl).Pass? && ttl >= 1000
  {
  }

  /**
   * With millisecond expiry the Redis layer keeps a value exactly as long
   * as the in-memory cache does.
   */
  lemma MillisMatchesLocal<V>(entries: map<string, Local.Entry>, fullKey: string, v: V, codec: Codec<V>, ttl: nat, now: nat, later: nat)
    requires codec.encode(v).Some? && RoundTripsOn(codec, v)
    requires SetMillisOutcome(true, codec.encode(v), ttl).Pass?
    requires now <= later
    ensures var e := entries[fullKey := Local.NewEntry(codec.encode(v).value, ttl, now)];
      Fetch(e, true, fullKey, later, codec) == Local.Lookup(e, fullKey, later, codec)
    ensures var e := entries[fullKey := Local.NewEntry(codec.encode(v).value, ttl, now)];
      Fetch(e, true, fullKey, later, codec) == if later - now < ttl then Ok(Some(v)) else Ok(None)
  {
    Local.SetThenLookup(entries, fullKey, v, codec, ttl, now, later);
  }

  /** After a successful `set` as written, the value is read back for the whole seconds of the TTL and no longer. */
  lemma SetExThenFetch<V>(entries: map<string, Local.Entry>, fullKey: string, v: V, codec: Codec<V>, ttl: nat, now: nat, later: nat)
    requires codec.encode(v).Some? && RoundTripsOn(codec, v)
    requires SetOutcome(true, codec.encode(v), ttl).Pass?
    requires now <= later
    ensures var e := entries[fullKey := Local.Entry(codec.encode(v).value, SetExExpiry(ttl, now))];
      Fetch(e, true, fullKey, later, codec) == if later < SetExExpiry(ttl, now) then Ok(Some(v)) else Ok(None)
  {
  }

  /** Keys under one prefix never meet keys under another, as long as neither prefix extends the other. */
  lemma {:induction false} PrefixesSeparate(p1: string, p2: string, k1: string, k2: string)
    requires !StartsWith(p1, p2) && !StartsWith(p2, p1)
    ensures p1 + k1 != p2 + k2
    ensures !StartsWith(p1 + k1, p2)
  {
    var m := if |p1| <= |p2| then |p1| else |p2|;
    assert p1[..m] != p2[..m] by {
      if |p1| <= |p2| {
        assert p2[..|p1|] != p1;
      } else {
        assert p1[..|p2|] != p2;
      }
    }
    var i :| 0 <= i < m && p1[i] != p2[i];
    assert (p1 + k1)[i] == p1[i];
    assert (p2 + k2)[i] == p2[i];
  }

  /** Distinct cache names without ':' give prefixes neither of which extends the other. */
  lemma NamesGiveSeparatePrefixes(n1: string, n2: string)
    requires n1 != n2 && ':' !in n1 && ':' !in n2
    ensures !StartsWith(n1 + ":", n2 + ":") && !StartsWith(n2 + ":", n1 + ":")
  {
    var p1, p2 := n1 + ":", n2 + ":";
    var i: nat;
    if |n1| == |n2| {
      i :| i < |n1| && n1[i] != n2[i];
    } else if |n1| < |n2| {
      i := |n1|;
    } else {
      i := |n2|;
    }
    assert i < |p1| && i < |p2| && p1[i] != p2[i];
  }

  /** So two such caches share no key, and one's `clear` never lists the other's keys. */
  lemma NamespacesIsolated(n1: string, n2: string, k1: string, k2: string)
    requires n1 != n2 && ':' !in n1 && ':' !in n2
    ensures (n1 + ":") + k1 != (n2 + ":") + k2
    ensures !StartsWith((n1 + ":") + k1, n2 + ":")
  {
    NamesGiveSeparatePrefixes(n1, n2);
    PrefixesSeparate(n1 + ":", n2 + ":", k1, k2);
  }

  /** A name that contains ':' can reach into another cache's key space. */
  lemma NestedNamesCollide()
    ensures ("a" + ":") + "b:x" == ("a:b" + ":") + "x"
    ensures StartsWith(("a:b" + ":") + "x", "a" + ":")
  {
  }

  /** After clearing a namespace nothing live is left under its prefix, and every other key reads as before. */
  lemma ClearEmptiesNamespace(entries: map<string, Local.Entry>, prefix: string, now: nat)
    ensures Matching(entries - Matching(entries, prefix, now), prefix, now) == {}
    ensures forall k :: !StartsWith(k, prefix) ==>
      (k in Local.Live(entries - Matching(entries, prefix, now), now) <==> k in Local.Live(entries, now))
  {
  }

  /** The Redis-backed cache object. */
  class RedisCache {
    const server: RedisServer
    const prefix: string
    var hits: nat
    var misses: nat
    var evictions: nat

    function Counts(): Local.Counters
      reads this
    {
      Local.Counters(hits, misses, evictions)
    }

    /** `RedisCache::new` once the connection is established: the prefix is the name followed by ':'. */
    constructor (server: RedisServer, name: string)
      ensures this.server == server && prefix == name + ":"
      ensures hits == 0 && misses == 0 && evictions == 0
    {
      this.server := server;
      prefix := name + ":";
      hits, misses, evictions := 0, 0, 0;
    }

    /** `build_key`: the full key starts with the prefix and the caller's key follows it unchanged. */
    function BuildKey(key: string): (k: string)
      ensures StartsWith(k, prefix) && k[|prefix|..] == key
    {
      prefix + key
    }

    /** `get`: a transport or decode error is returned without counting; otherwise a hit or a miss. */
    method Get<V>(key: string, now: nat, codec: Codec<V>) returns (r: Result<Option<V>, CacheError>)
      modifies this
      ensures r == Fetch(server.entries, server.up, BuildKey(key), now, codec)
      ensures Counts() == CountFetch(old(Counts()), server.entries, server.up, BuildKey(key), now, codec)
    {
      var fullKey := BuildKey(key);
      if !server.up {
        return Err(StoreUnavailable);
      }
      if fullKey !in server.entries || Local.Expired(server.entries[fullKey], now) {
        misses := misses + 1;
        return Ok(None);
      }
      var decoded := codec.decode(server.entries[fullKey].data);
      if decoded.None? {
        return Err(DeserializeFailed);
      }
      hits := hits + 1;
      return Ok(Some(decoded.value));
    }

    /**
     * `set`, with the expiry kept to the millisecond (the corrected form of
     * `SetOutcome`/`SetExExpiry`): the value expires exactly `ttl` after
     * `now`, as in the in-memory cache; the counters are untouched.
     */
    method Set<V>(key: string, value: V, ttl: nat, now: nat, codec: Codec<V>) returns (r: Outcome<CacheError>)
      modifies server
      ensures r == SetMillisOutcome(old(server.up), codec.encode(value), ttl)
      ensures server.up == old(server.up)
      ensures server.entries == if r.Pass?
        then old(server.entries)[BuildKey(key) := Local.NewEntry(codec.encode(value).value, ttl, now)]
        else old(server.entries)
    {
      var fullKey := BuildKey(key);
      var data := codec.encode(value);
      if data.None? {
        return Fail(SerializeFailed);
      }
      if !server.up {
        return Fail(StoreUnavailable);
      }
      if ttl == 0 {
        return Fail(InvalidExpireTime);
      }
      server.entries := server.entries[fullKey := Local.NewEntry(data.value, ttl, now)];
      return Pass;
    }

    /** `delete`: `DEL`; a key that was live counts as one eviction. */
    method Delete(key: string, now: nat) returns (r: Outcome<CacheError>)
      modifies this, server
      ensures server.up == old(server.up)
      ensures !old(server.up) ==> r == Fail(StoreUnavailable) && server.entries == old(server.entries) && Counts() == old(Counts())
      ensures old(server.up) ==> r == Pass && server.entries == old(server.entries) - {BuildKey(key)}
      ensures old(server.up) ==> hits == old(hits) && misses == old(misses)
      ensures old(server.up) ==> evictions == old(evictions) + if BuildKey(key) in Local.Live(old(server.entries), now) then 1 else 0
    {
      var fullKey := BuildKey(key);
      if !server.up {
        return Fail(StoreUnavailable);
      }
      var deleted := if fullKey in server.entries && !Local.Expired(server.entries[fullKey], now) then 1 else 0;
      server.entries := server.entries - {fullKey};
      evictions := evictions + deleted;
      return Pass;
    }

    /** `exists`: the key is live under this prefix; an error when Redis does not answer. */
    method Exists(key: string, now: nat) returns (r: Result<bool, CacheError>)
      ensures !server.up ==> r == Err(StoreUnavailable)
      ensures server.up ==> r.Ok? && (r.value <==> BuildKey(key) in Local.Live(server.entries, now))
    {
      var fullKey := BuildKey(key);
      if !server.up {
        return Err(StoreUnavailable);
      }
      return Ok(fullKey in server.entries && !Local.Expired(server.entries[fullKey], now));
    }

    /** `clear`: `KEYS prefix*` then `DEL` of all of them, counting each deleted key as an eviction. */
    method Clear(now: nat) returns (r: Outcome<CacheError>)
      modifies this, server
      ensures server.up == old(server.up)
      ensures !old(server.up) ==> r == Fail(StoreUnavailable) && server.entries == old(server.entries) && Counts() == old(Counts())
      ensures old(server.up) ==> r == Pass && server.entries == old(server.entries) - Matching(old(server.entries), prefix, now)
      ensures old(server.up) ==> hits == old(hits) && misses == old(misses)
      ensures old(server.up) ==> evictions == old(evictions) + |Matching(old(server.entries), prefix, now)|
    {
      if !server.up {
        return Fail(StoreUnavailable);
      }
      var keys := Matching(server.entries, prefix, now);
      if keys == {} {
        return Pass;
      }
      server.entries := server.entries - keys;
      evictions := evictions + |keys|;
      return Pass;
    }

    /** `stats`: the counters and the number of live keys under the prefix; an error when Redis does not answer. */
    method Stats(now: nat) returns (r: Result<CacheStats, CacheError>)
      ensures !server.up ==> r == Err(StoreUnavailable)
      ensures server.up ==> r.Ok?
      ensures r.Ok? ==> r.value.hits == hits && r.value.misses == misses && r.value.evictions == evictions
      ensures r.Ok? ==> r.value.size == |Matching(server.entries, prefix, now)| && RateMatches(r.value)
    {
      if !server.up {
        return Err(StoreUnavailable);
      }
      var size := |Matching(server.entries, prefix, now)|;
      return Ok(StatsOf(hits, misses, evictions, size));
    }
  }

  /**
   * Two caches named "app1" and "app2" on one Redis write the same key and
   * each reads back its own value.
   */
  method SharedKeyIsolation<V>(server: RedisServer, v1: V, v2: V, codec: Codec<V>, now: nat)
      returns (r1: Result<Option<V>, CacheError>, r2: Result<Option<V>, CacheError>)
    requires server.up
    requires codec.encode(v1).Some? && RoundTripsOn(codec, v1)
    requires codec.encode(v2).Some? && RoundTripsOn(codec, v2)
    modifies server
    ensures r1 == Ok(Some(v1)) && r2 == Ok(Some(v2))
  {
    var c1 := new RedisCache(server, "app1");
    var c2 := new RedisCache(server, "app2");
    var ok1 := c1.Set("shared_key", v1, 60000, now, codec);
    var ok2 := c2.Set("shared_key", v2, 60000, now, codec);
    NamespacesIsolated("app1", "app2", "shared_key", "shared_key");
    r1 := c1.Get("shared_key", now, codec);
    r2 := c2.Get("shared_key", now, codec);
  }
}

/**
 * The two-level cache: an in-memory L1 in front of an optional Redis L2.
 * Reads try L1, then L2, and copy an L2 hit into L1 for five minutes.
 * Writes, deletes and clears go to L1 and then, best effort, to L2: an L2
 * failure is swallowed, so the cache keeps working on L1 alone.
 */
module Hybrid {
  import opened Wrappers
  import opened Cache
  import Local
  import Redis

  /** TTL of the L1 copy made when a read is served from L2: 300 seconds. */
  const BackfillTtl: nat := 300000

  /** An answer that carries a value. */
  predicate IsHit<V>(r: Result<Option<V>, CacheError>) {
    r.Ok? && r.value.Some?
  }

  /**
   * The answer of `get` from the L1 answer and, when there is an L2, the L2
   * answer (consulted only when L1 has no value).
   */
  function GetOutcome<V>(r1: Result<Option<V>, CacheError>, r2: Option<Result<Option<V>, CacheError>>): (r: Result<Option<V>, CacheError>)
    ensures r.Ok?
    ensures IsHit(r1) ==> r == r1
    ensures !IsHit(r1) && r2.Some? && IsHit(r2.value) ==> r == r2.value
    ensures IsHit(r) <==> IsHit(r1) || (r2.Some? && IsHit(r2.value))
  {
    if IsHit(r1) then r1
    else if r2.Some? && IsHit(r2.value) then r2.value
    else Ok(None)
  }

  /** `stats`' aggregation: the counters and sizes add up and the rate is recomputed from the sums. */
  function CombineStats(a: CacheStats, b: CacheStats): (c: CacheStats)
    ensures c.hits == a.hits + b.hits && c.misses == a.misses + b.misses
    ensures c.evictions == a.evictions + b.evictions && c.size == a.size + b.size
    ensures RateMatches(c)
  {
    StatsOf(a.hits + b.hits, a.misses + b.misses, a.evictions + b.evictions, a.size + b.size)
  }

  /** The combined hit rate lies between the rates of the two layers. */
  lemma CombinedRateBetween(a: CacheStats, b: CacheStats)
    requires RateMatches(a) && RateMatches(b)
    requires a.hits + a.misses > 0 && b.hits + b.misses > 0
    requires a.hitRate <= b.hitRate
    ensures a.hitRate <= CombineStats(a, b).hitRate <= b.hitRate
  {
    var c := CombineStats(a, b);
    var ta, tb := (a.hits + a.misses) as real, (b.hits + b.misses) as real;
    assert (c.hits + c.misses) as real == ta + tb;
    assert c.hitRate * (ta + tb) == a.hitRate * ta + b.hitRate * tb;
    WeightedMeanBetween(a.hitRate, b.hitRate, c.hitRate, ta, tb);
  }

  /** A weighted mean of two values with positive weights lies between them. */
  lemma WeightedMeanBetween(x: real, y: real, m: real, wx: real, wy: real)
    requires wx > 0.0 && wy > 0.0 && x <= y
    requires m * (wx + wy) == x * wx + y * wy
    ensures x <= m <= y
  {
    ScaleMono(x, y, wy);
    ScaleMono(x, y, wx);
    Distribute(x, wx, wy);
    Distribute(y, wx, wy);
    assert x * (wx + wy) <= m * (wx + wy);
    assert m * (wx + wy) <= y * (wx + wy);
    ScaleCancel(x, m, wx + wy);
    ScaleCancel(m, y, wx + wy);
  }

  lemma Distribute(x: real, a: real, b: real)
    ensures x * (a + b) == x * a + x * b
  {
  }

  lemma ScaleMono(x: real, y: real, w: real)
    requires x <= y && w >= 0.0
    ensures x * w <= y * w
  {
  }

  lemma ScaleCancel(x: real, y: real, w: real)
    requires w > 0.0 && x * w <= y * w
    ensures x <= y
  {
    assert (y - x) * w == y * w - x * w;
  }

  /**
   * `get` cannot tell a failing layer from a missing key: an error from
   * either layer gives the answer a miss there would give, and an L2 that
   * misses gives the answer of having no L2 at all.
   */
  lemma ErrorsReadAsMisses<V>(r1: Result<Option<V>, CacheError>, r2: Option<Result<Option<V>, CacheError>>, e: CacheError)
    ensures GetOutcome(Err(e), r2) == GetOutcome(Ok(None), r2)
    ensures GetOutcome(r1, Some(Err(e))) == GetOutcome(r1, Some(Ok(None)))
    ensures GetOutcome(r1, Some(Ok(None))) == GetOutcome(r1, None)
  {
  }

  class HybridCache {
    const l1: Local.LocalCache
    const l2: Option<Redis.RedisCache>

    /** The L2 cache object, when there is one. */
    function L2(): set<object> {
      if l2.Some? then {l2.value} else {}
    }

    /** The Redis instance behind L2, when there is one. */
    function L2Server(): set<object> {
      if l2.Some? then {l2.value.server} else {}
    }

    /** What L2 answers for `key` at `now`, when there is an L2. */
    function L2Fetch<V>(key: string, now: nat, codec: Codec<V>): Option<Result<Option<V>, CacheError>>
      reads L2Server()
    {
      if l2.None? then None
      else Some(Redis.Fetch(l2.value.server.entries, l2.value.server.up, l2.value.BuildKey(key), now, codec))
    }

    /** `HybridCache::new`. */
    constructor (l1: Local.LocalCache, l2: Option<Redis.RedisCache>)
      ensures this.l1 == l1 && this.l2 == l2
    {
      this.l1 := l1;
      this.l2 := l2;
    }

    /** `local_only`: a fresh, empty L1 and no L2. */
    constructor LocalOnly()
      ensures fresh(l1) && l2.None?
      ensures l1.store == map[] && l1.hits == 0 && l1.misses == 0 && l1.evictions == 0
    {
      l1 := new Local.LocalCache();
      l2 := None;
    }

    /** `get`: L1 first, then L2; an L2 hit is copied into L1 (a failed copy is ignored). */
    method Get<V>(key: string, now: nat, codec: Codec<V>) returns (r: Result<Option<V>, CacheError>)
      modifies l1, L2()
      ensures r == GetOutcome(Local.Lookup(old(l1.store), key, now, codec), if IsHit(Local.Lookup(old(l1.store), key, now, codec)) then None else L2Fetch(key, now, codec))
      ensures l1.Counts() == Local.CountGet(old(l1.Counts()), old(l1.store), key, now, codec)
      ensures var r1 := Local.Lookup(old(l1.store), key, now, codec);
        var afterRead := Local.AfterRead(old(l1.store), key, now);
        if !IsHit(r1) && IsHit(r) && codec.encode(r.value.value).Some?
        then l1.store == afterRead[key := Local.NewEntry(codec.encode(r.value.value).value, BackfillTtl, now)]
        else l1.store == afterRead
      ensures l2.Some? ==> var c := l2.value;
        if IsHit(Local.Lookup(old(l1.store), key, now, codec)) then c.Counts() == old(c.Counts())
        else c.Counts() == Redis.CountFetch(old(c.Counts()), c.server.entries, c.server.up, c.BuildKey(key), now, codec)
    {
      var r1 := l1.Get(key, now, codec);
      if IsHit(r1) {
        return r1;
      }
      if l2.Some? {
        var r2 := l2.value.Get(key, now, codec);
        if IsHit(r2) {
          var backfill := l1.Set(key, r2.value.value, BackfillTtl, now, codec);
          return r2;
        }
      }
      return Ok(None);
    }

    /** `set`: an L1 failure is returned; the L2 write is best effort and its failure ignored. */
    method Set<V>(key: string, value: V, ttl: nat, now: nat, codec: Codec<V>) returns (r: Outcome<CacheError>)
      modifies l1, L2Server()
      ensures r == if codec.encode(value).None? then Fail(SerializeFailed) else Pass
      ensures l1.Counts() == old(l1.Counts())
      ensures r.Fail? ==> l1.store == old(l1.store)
      ensures r.Pass? ==> l1.store == old(l1.store)[key := Local.NewEntry(codec.encode(value).value, ttl, now)]
      ensures l2.Some? ==> var s := l2.value.server;
        s.up == old(s.up) &&
        s.entries == if r.Pass? && Redis.SetMillisOutcome(s.up, codec.encode(value), ttl).Pass?
          then old(s.entries)[l2.value.BuildKey(key) := Local.NewEntry(codec.encode(value).value, ttl, now)]
          else old(s.entries)
    {
      r := l1.Set(key, value, ttl, now, codec);
      if r.Fail? {
        return;
      }
      if l2.Some? {
        var ignored := l2.value.Set(key, value, ttl, now, codec);
      }
    }

    /** `delete`: from L1, then best effort from L2; never fails. */
    method Delete(key: string, now: nat)
      modifies l1, L2(), L2Server()
      ensures l1.store == old(l1.store) - {key} && l1.Counts() == old(l1.Counts())
      ensures l2.Some? ==> var c := l2.value;
        c.server.up == old(c.server.up) &&
        (c.server.up ==> c.server.entries == old(c.server.entries) - {c.BuildKey(key)}) &&
        (c.server.up ==> (c.hits == old(c.hits) && c.misses == old(c.misses) &&
                          c.evictions == old(c.evictions) + if c.BuildKey(key) in Local.Live(old(c.server.entries), now) then 1 else 0)) &&
        (!c.server.up ==> c.server.entries == old(c.server.entries) && c.Counts() == old(c.Counts()))
    {
      l1.Delete(key);
      if l2.Some? {
        var ignored := l2.value.Delete(key, now);
      }
    }

    /** `exists`: true when L1 has the key live; otherwise L2's answer, with an L2 failure read as false. */
    method Exists(key: string, now: nat) returns (b: bool)
      modifies l1
      ensures b <==> (key in Local.Live(old(l1.store), now)
        || (l2.Some? && l2.value.server.up && l2.value.BuildKey(key) in Local.Live(l2.value.server.entries, now)))
      ensures l1.store == Local.AfterRead(old(l1.store), key, now)
      ensures l1.Counts() == Local.CountExists(old(l1.Counts()), old(l1.store), key, now)
    {
      b := l1.Exists(key, now);
      if b {
        return;
      }
      if l2.Some? {
        var r2 := l2.value.Exists(key, now);
        if r2.Ok? {
          return r2.value;
        }
      }
      return false;
    }

    /** `clear`: L1, then best effort L2's namespace; never fails. */
    method Clear(now: nat)
      modifies l1, L2(), L2Server()
      ensures l1.store == map[] && l1.Counts() == old(l1.Counts())
      ensures l2.Some? ==> var c := l2.value;
        c.server.up == old(c.server.up) &&
        (c.server.up ==> c.server.entries == old(c.server.entries) - Redis.Matching(old(c.server.entries), c.prefix, now)) &&
        (c.server.up ==> (c.hits == old(c.hits) && c.misses == old(c.misses) &&
                          c.evictions == old(c.evictions) + |Redis.Matching(old(c.server.entries), c.prefix, now)|)) &&
        (!c.server.up ==> c.server.entries == old(c.server.entries) && c.Counts() == old(c.Counts()))
    {
      l1.Clear();
      if l2.Some? {
        var ignored := l2.value.Clear(now);
      }
    }

    /** `stats`: L1's statistics, added to L2's when L2 answers. */
    method Stats(now: nat) returns (s: CacheStats)
      ensures var s1 := StatsOf(l1.hits, l1.misses, l1.evictions, |l1.store|);
        if l2.Some? && l2.value.server.up
        then s == CombineStats(s1, StatsOf(l2.value.hits, l2.value.misses, l2.value.evictions, |Redis.Matching(l2.value.server.entries, l2.value.prefix, now)|))
        else s == s1
    {
      var s1 := l1.Stats();
      RateMatchesUnique(s1, StatsOf(l1.hits, l1.misses, l1.evictions, |l1.store|));
      s := s1;
      if l2.Some? {
        var r2 := l2.value.Stats(now);
        if r2.Ok? {
          RateMatchesUnique(r2.value, StatsOf(l2.value.hits, l2.value.misses, l2.value.evictions, |Redis.Matching(l2.value.server.entries, l2.value.prefix, now)|));
          s := CombineStats(s1, r2.value);
        }
      }
    }
  }

  /**
   * With Redis unreachable the cache still returns what was written, from
   * L1: the degradation the design promises.
   */
  method WorksWithoutRedis<V>(h: HybridCache, key: string, v: V, codec: Codec<V>, ttl: nat, now: nat) returns (r: Result<Option<V>, CacheError>)
    requires h.l2.Some? && !h.l2.value.server.up
    requires codec.encode(v).Some? && RoundTripsOn(codec, v) && ttl > 0
    modifies h.l1, h.L2(), h.L2Server()
    ensures r == Ok(Some(v))
  {
    var w := h.Set(key, v, ttl, now, codec);
    r := h.Get(key, now, codec);
  }
}

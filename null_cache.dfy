/**
 * The no-op cache: it stores nothing, so it answers every query as an
 * empty cache would, and every write or removal succeeds without effect.
 * Being stateless, it is a value and its operations are functions.
 */
module Null {
  import opened Wrappers
  import opened Cache
  import Local

  datatype NullCache = NullCache {

    /** `get`: a miss, exactly what an empty in-memory cache answers. */
    function Get<V>(key: string, now: nat, codec: Codec<V>): (r: Result<Option<V>, CacheError>)
      ensures r == Local.Lookup(map[], key, now, codec)
      ensures r == Ok(None)
    {
      Ok(None)
    }

    /** `set`: accepted, even for a value that does not encode, and nothing is kept. */
    function Set<V>(key: string, value: V, ttl: nat): (r: Outcome<CacheError>)
      ensures r.Pass?
    {
      Pass
    }

    /** `delete`: succeeds. */
    function Delete(key: string): (r: Outcome<CacheError>)
      ensures r.Pass?
    {
      Pass
    }

    /** `exists`: false, as for an empty in-memory cache. */
    function Exists(key: string, now: nat): (r: Result<bool, CacheError>)
      ensures r.Ok? && (r.value <==> key in Local.Live(map[], now))
    {
      Ok(false)
    }

    /** `clear`: succeeds. */
    function Clear(): (r: Outcome<CacheError>)
      ensures r.Pass?
    {
      Pass
    }

    /** `stats`: `CacheStats::new()`. */
    function Stats(): (r: Result<CacheStats, CacheError>)
      ensures r.Ok? && r.value == NewStats()
    {
      Ok(NewStats())
    }
  }
}

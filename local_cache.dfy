/**
 * The in-memory cache: a map from keys to encoded entries with an expiry
 * instant, plus hit / miss / eviction counters. Time is a parameter `now`
 * in milliseconds; an entry written at `t` with TTL `d` is live while
 * `now < t + d`. Expired entries stay in the map until a read, an exists
 * check or the periodic sweep removes them, and each such removal counts as
 * an eviction.
 */
module Local {
  import opened Wrappers
  import opened Cache

  datatype Entry = Entry(data: Bytes, expiresAt: nat)

  /** `CacheEntry::is_expired`: the expiry instant has been reached. */
  predicate Expired(e: Entry, now: nat) {
    now >= e.expiresAt
  }

  /** `CacheEntry::new`: live for exactly `ttl` milliseconds from `now`. */
  function NewEntry(data: Bytes, ttl: nat, now: nat): (e: Entry)
    ensures e.data == data
    ensures !Expired(e, now) <==> ttl > 0
    ensures forall t: nat {:trigger Expired(e, t)} :: now <= t ==> (Expired(e, t) <==> t - now >= ttl)
  {
    Entry(data, now + ttl)
  }

  /** What the cache holds at `now`: its unexpired entries. */
  function Live(store: map<string, Entry>, now: nat): map<string, Bytes> {
    map k | k in store && !Expired(store[k], now) :: store[k].data
  }

  /**
   * The store with every expired entry removed: the unexpired entries
   * stay as they were, so what the cache holds does not change.
   */
  function Prune(store: map<string, Entry>, now: nat): (r: map<string, Entry>)
    ensures forall k :: k in r <==> k in store && !Expired(store[k], now)
    ensures forall k :: k in r ==> r[k] == store[k]
    ensures Live(r, now) == Live(store, now)
  {
    map k | k in store && !Expired(store[k], now) :: store[k]
  }

  /** The keys whose entries have expired at `now`. */
  function ExpiredKeys(store: map<string, Entry>, now: nat): set<string> {
    set k | k in store && Expired(store[k], now)
  }

  /**
   * What `get` answers, read off the live content: nothing for a missing
   * or expired entry, the decoded value of a live one, and
   * `DeserializeFailed` when a live entry does not decode.
   */
  function Lookup<V>(store: map<string, Entry>, key: string, now: nat, codec: Codec<V>): (r: Result<Option<V>, CacheError>)
    ensures r == Ok(None) <==> key !in store || Expired(store[key], now)
    ensures r.Err? <==> key in store && !Expired(store[key], now) && codec.decode(store[key].data).None?
    ensures r.Err? ==> r.error == DeserializeFailed
    ensures r.Ok? && r.value.Some? ==> key in store && codec.decode(store[key].data) == Some(r.value.value)
  {
    var live := Live(store, now);
    if key !in live then Ok(None)
    else match codec.decode(live[key])
      case None => Err(DeserializeFailed)
      case Some(v) => Ok(Some(v))
  }

  /**
   * The store after a read of `key`: an expired entry under `key` is
   * dropped, every other entry is kept, and what the cache holds does not
   * change.
   */
  function AfterRead(store: map<string, Entry>, key: string, now: nat): (r: map<string, Entry>)
    ensures key in r <==> key in store && !Expired(store[key], now)
    ensures forall k :: k != key ==> (k in r <==> k in store)
    ensures forall k :: k in r ==> r[k] == store[k]
    ensures Live(r, now) == Live(store, now)
  {
    if key in store && Expired(store[key], now) then store - {key} else store
  }

  datatype Counters = Counters(hits: nat, misses: nat, evictions: nat)

  /** How `get` moves the counters. */
  function CountGet<V>(c: Counters, store: map<string, Entry>, key: string, now: nat, codec: Codec<V>): Counters {
    if key !in store then c.(misses := c.misses + 1)
    else if Expired(store[key], now) then c.(misses := c.misses + 1, evictions := c.evictions + 1)
    else if codec.decode(store[key].data).None? then c
    else c.(hits := c.hits + 1)
  }

  /** How `exists` moves the counters. */
  function CountExists(c: Counters, store: map<string, Entry>, key: string, now: nat): Counters {
    if key in store && Expired(store[key], now) then c.(evictions := c.evictions + 1) else c
  }

  // ---------------------------------------------------------------------
  // Properties of the specification functions
  // ---------------------------------------------------------------------

  /** Dropping expired entries, in a read or in the sweep, never changes what the cache holds. */
  lemma PruneKeepsLive(store: map<string, Entry>, now: nat, key: string)
    ensures Live(Prune(store, now), now) == Live(store, now)
    ensures Live(AfterRead(store, key, now), now) == Live(store, now)
    ensures Prune(store, now).Keys !! ExpiredKeys(store, now)
    ensures Prune(store, now).Keys + ExpiredKeys(store, now) == store.Keys
  {
  }

  /** Reading a key never changes what any later `get` sees. */
  lemma ReadKeepsLookups<V>(store: map<string, Entry>, key: string, other: string, now: nat, codec: Codec<V>)
    ensures Lookup(AfterRead(store, key, now), other, now, codec) == Lookup(store, other, now, codec)
  {
    PruneKeepsLive(store, now, key);
  }

  /** Entries only ever expire: what is live later was live earlier. */
  lemma LiveShrinksOverTime(store: map<string, Entry>, t1: nat, t2: nat)
    requires t1 <= t2
    ensures Live(store, t2).Keys <= Live(store, t1).Keys
    ensures forall k :: k in Live(store, t2) ==> Live(store, t1)[k] == Live(store, t2)[k]
  {
  }

  /** A value written with a positive TTL is read back, until the TTL has elapsed. */
  lemma SetThenLookup<V>(store: map<string, Entry>, key: string, v: V, codec: Codec<V>, ttl: nat, now: nat, later: nat)
    requires codec.encode(v).Some? && RoundTripsOn(codec, v)
    requires now <= later
    ensures var s := store[key := NewEntry(codec.encode(v).value, ttl, now)];
      Lookup(s, key, later, codec) == if later - now < ttl then Ok(Some(v)) else Ok(None)
  {
  }

  /** A write to one key leaves every other key's reading alone. */
  lemma SetKeepsOthers<V>(store: map<string, Entry>, key: string, other: string, e: Entry, codec: Codec<V>, now: nat)
    requires other != key
    ensures Lookup(store[key := e], other, now, codec) == Lookup(store, other, now, codec)
  {
  }

  /** A deleted key reads as a miss. */
  lemma DeleteThenLookup<V>(store: map<string, Entry>, key: string, codec: Codec<V>, now: nat)
    ensures Lookup(store - {key}, key, now, codec) == Ok(None)
  {
  }

  /**
   * Every `get` that succeeds counts exactly one hit or one miss, and a
   * hit exactly when it returns a value; a failed decode counts nothing.
   */
  lemma {:induction false} GetCountsOnce<V>(c: Counters, store: map<string, Entry>, key: string, now: nat, codec: Codec<V>)
    ensures var c' := CountGet(c, store, key, now, codec);
      var r := Lookup(store, key, now, codec);
      && (r.Ok? ==> c'.hits + c'.misses == c.hits + c.misses + 1)
      && (r.Err? ==> c' == c)
      && (c'.hits == c.hits + 1 <==> r.Ok? && r.value.Some?)
      && (c'.evictions == c.evictions + 1 <==> key in store && Expired(store[key], now))
      && (c'.evictions == c.evictions || c'.evictions == c.evictions + 1)
  {
    if key in store && !Expired(store[key], now) {
      assert Live(store, now)[key] == store[key].data;
    }
  }

  /** The in-memory cache object. */
  class LocalCache {
    var store: map<string, Entry>
    var hits: nat
    var misses: nat
    var evictions: nat

    function Counts(): Counters
      reads this
    {
      Counters(hits, misses, evictions)
    }

    /** `LocalCache::new`: empty, all counters zero. */
    constructor ()
      ensures store == map[] && hits == 0 && misses == 0 && evictions == 0
    {
      store := map[];
      hits, misses, evictions := 0, 0, 0;
    }

    /** `get`: a live entry is decoded and counted as a hit; an expired one is removed and counted as a miss and an eviction. */
    method Get<V>(key: string, now: nat, codec: Codec<V>) returns (r: Result<Option<V>, CacheError>)
      modifies this
      ensures r == Lookup(old(store), key, now, codec)
      ensures store == AfterRead(old(store), key, now)
      ensures Counts() == CountGet(old(Counts()), old(store), key, now, codec)
    {
      if key in store {
        var entry := store[key];
        if Expired(entry, now) {
          store := store - {key};
          evictions := evictions + 1;
          misses := misses + 1;
          return Ok(None);
        }
        var decoded := codec.decode(entry.data);
        if decoded.None? {
          return Err(DeserializeFailed);
        }
        hits := hits + 1;
        return Ok(Some(decoded.value));
      } else {
        misses := misses + 1;
        return Ok(None);
      }
    }

    /** `set`: encodes the value and stores it with expiry `now + ttl`; a value that does not encode changes nothing. */
    method Set<V>(key: string, value: V, ttl: nat, now: nat, codec: Codec<V>) returns (r: Outcome<CacheError>)
      modifies this
      ensures codec.encode(value).None? ==> r == Fail(SerializeFailed) && store == old(store)
      ensures codec.encode(value).Some? ==>
        r == Pass && store == old(store)[key := NewEntry(codec.encode(value).value, ttl, now)]
      ensures Counts() == old(Counts())
    {
      var data := codec.encode(value);
      if data.None? {
        return Fail(SerializeFailed);
      }
      store := store[key := NewEntry(data.value, ttl, now)];
      return Pass;
    }

    /** `delete`: removes the key whether or not it was there; never fails. */
    method Delete(key: string)
      modifies this
      ensures store == old(store) - {key}
      ensures Counts() == old(Counts())
    {
      store := store - {key};
    }

    /** `exists`: true exactly for a live key; an expired entry is removed and counted as an eviction. */
    method Exists(key: string, now: nat) returns (b: bool)
      modifies this
      ensures b <==> key in Live(old(store), now)
      ensures store == AfterRead(old(store), key, now)
      ensures Counts() == CountExists(old(Counts()), old(store), key, now)
    {
      if key in store {
        if Expired(store[key], now) {
          store := store - {key};
          evictions := evictions + 1;
          return false;
        }
        return true;
      }
      return false;
    }

    /** `clear`: empties the store; the counters are kept. */
    method Clear()
      modifies this
      ensures store == map[]
      ensures Counts() == old(Counts())
    {
      store := map[];
    }

    /** `stats`: the counters, the number of stored entries (expired ones not yet removed included) and the hit rate. */
    method Stats() returns (s: CacheStats)
      ensures s.hits == hits && s.misses == misses && s.evictions == evictions
      ensures s.size == |store|
      ensures RateMatches(s)
    {
      s := StatsOf(hits, misses, evictions, |store|);
    }

    /**
     * One tick of the background cleanup task: first collect the expired
     * keys, then remove each of them, counting one eviction per key.
     */
    method Sweep(now: nat)
      modifies this
      ensures store == Prune(old(store), now)
      ensures evictions == old(evictions) + |ExpiredKeys(old(store), now)|
      ensures hits == old(hits) && misses == old(misses)
    {
      var expired := CollectExpired(store, now);
      var n := 0;
      while n < |expired|
        invariant 0 <= n <= |expired|
        invariant store == old(store) - (set i | 0 <= i < n :: expired[i])
        invariant evictions == old(evictions) + n
        invariant hits == old(hits) && misses == old(misses)
      {
        store := store - {expired[n]};
        evictions := evictions + 1;
        n := n + 1;
      }
      assert store == old(store) - ExpiredKeys(old(store), now);
    }
  }

  /** The first pass of the sweep: every expired key, each listed once. */
  method CollectExpired(store: map<string, Entry>, now: nat) returns (expired: seq<string>)
    ensures (set i | 0 <= i < |expired| :: expired[i]) == ExpiredKeys(store, now)
    ensures |expired| == |ExpiredKeys(store, now)|
  {
    expired := [];
    var unseen := store.Keys;
    while unseen != {}
      invariant unseen <= store.Keys
      invariant forall i :: 0 <= i < |expired| ==> expired[i] in store && expired[i] !in unseen
      invariant forall i, j :: 0 <= i < j < |expired| ==> expired[i] != expired[j]
      invariant forall k :: k in store && k !in unseen ==> (Expired(store[k], now) <==> k in expired)
      invariant forall i :: 0 <= i < |expired| ==> Expired(store[expired[i]], now)
      decreases |unseen|
    {
      var k :| k in unseen;
      if Expired(store[k], now) {
        expired := expired + [k];
      }
      unseen := unseen - {k};
    }
    DistinctCard(expired);
  }

  /** A sequence without repetitions has as many distinct elements as positions. */
  lemma {:induction false} DistinctCard(s: seq<string>)
    requires forall i, j :: 0 <= i < j < |s| ==> s[i] != s[j]
    ensures |set i | 0 <= i < |s| :: s[i]| == |s|
  {
    if s != [] {
      var t := s[..|s| - 1];
      DistinctCard(t);
      var a := set i | 0 <= i < |t| :: t[i];
      var b := set i | 0 <= i < |s| :: s[i];
      assert b == a + {s[|s| - 1]};
      assert s[|s| - 1] !in a;
    }
  }

  /** The round trip the unit tests exercise: a fresh cache returns what was just written. */
  method SetThenGet<V(==)>(c: LocalCache, key: string, v: V, codec: Codec<V>, ttl: nat, now: nat) returns (r: Result<Option<V>, CacheError>)
    requires codec.encode(v).Some? && RoundTripsOn(codec, v) && ttl > 0
    modifies c
    ensures r == Ok(Some(v))
    ensures c.hits == old(c.hits) + 1
  {
    var w := c.Set(key, v, ttl, now, codec);
    r := c.Get(key, now, codec);
  }
}

/**
 * The validation cache: a key/value store (the contents of the Redis
 * server) reached through an optional connection. Every result is stored
 * under `"domain_validation:" + lower(domain)`. Without a connection reads
 * miss and writes and deletes do nothing; a store error is swallowed, so a
 * failing read misses and a failing write or delete changes nothing.
 * Serialisation to and from JSON is taken to be the identity.
 */
module Cache {
  import opened Text
  import opened Schemas

  /** `settings.cache_ttl`: one hour, in seconds. */
  const CacheTtl: int := 3600

  const KeyPrefix: string := "domain_validation:"

  /** What the Redis server holds: cache keys to stored results. */
  type Store = map<string, DomainValidationResponse>

  /** `_generate_cache_key`: the prefix followed by the lower-cased domain. */
  function CacheKey(domain: string): (key: string)
    ensures KeyPrefix <= key && key[|KeyPrefix|..] == Lower(domain)
  {
    KeyPrefix + Lower(domain)
  }

  /** Two domains share a cache entry exactly when they agree once lower-cased. */
  lemma CacheKeySameEntry(a: string, b: string)
    ensures CacheKey(a) == CacheKey(b) <==> Lower(a) == Lower(b)
  {
    if CacheKey(a) == CacheKey(b) {
      assert Lower(a) == CacheKey(a)[|KeyPrefix|..] == CacheKey(b)[|KeyPrefix|..] == Lower(b);
    }
  }

  /** A domain and its lower-case form have the same key. */
  lemma CacheKeyIgnoresCase(domain: string)
    ensures CacheKey(Lower(domain)) == CacheKey(domain)
  {
    LowerIdempotent(domain);
  }

  /**
   * `get_cached_validation` on the store: the entry under the domain's key,
   * absent when disconnected, when the read fails or when there is none.
   */
  function Lookup(store: Store, connected: bool, fault: bool, domain: string): (r: Option<DomainValidationResponse>)
    ensures r.Some? <==> connected && !fault && CacheKey(domain) in store
    ensures r.Some? ==> r.value == store[CacheKey(domain)]
  {
    if !connected || fault then None
    else if CacheKey(domain) in store then Some(store[CacheKey(domain)])
    else None
  }

  /** `cache_validation_result` on the store: writes the result under the key, unless disconnected or failing. */
  function Stored(store: Store, connected: bool, fault: bool, domain: string, result: DomainValidationResponse): (s: Store)
    ensures s.Keys == if connected && !fault then store.Keys + {CacheKey(domain)} else store.Keys
  {
    if !connected || fault then store else store[CacheKey(domain) := result]
  }

  /** `invalidate_domain_cache` on the store: removes the key, unless disconnected or failing. */
  function Deleted(store: Store, connected: bool, fault: bool, domain: string): (s: Store)
    ensures s.Keys == if connected && !fault then store.Keys - {CacheKey(domain)} else store.Keys
  {
    if !connected || fault then store else store - {CacheKey(domain)}
  }

  /** A successful write is read back under any spelling of the domain that lower-cases the same. */
  lemma GetAfterPut(store: Store, d: string, e: string, result: DomainValidationResponse)
    requires Lower(d) == Lower(e)
    ensures Lookup(Stored(store, true, false, d, result), true, false, e) == Some(result)
  {
    CacheKeySameEntry(d, e);
  }

  /** After a successful delete the domain misses, under any spelling that lower-cases the same. */
  lemma GetAfterDelete(store: Store, d: string, e: string, connected: bool, fault: bool)
    requires Lower(d) == Lower(e)
    ensures Lookup(Deleted(store, true, false, d), connected, fault, e) == None
  {
    CacheKeySameEntry(d, e);
  }

  /** Writing or deleting one domain leaves every other entry as it was. */
  lemma OtherKeysUnchanged(store: Store, connected: bool, fault: bool, d: string, result: DomainValidationResponse, k: string)
    requires k != CacheKey(d)
    ensures k in Stored(store, connected, fault, d, result) <==> k in store
    ensures k in Deleted(store, connected, fault, d) <==> k in store
    ensures k in store ==> Stored(store, connected, fault, d, result)[k] == store[k] && Deleted(store, connected, fault, d)[k] == store[k]
  {
  }

  /** What another domain reads is not affected by writing or deleting one domain. */
  lemma OtherDomainsUnchanged(store: Store, d: string, e: string, result: DomainValidationResponse, connected: bool, fault: bool, readFault: bool)
    requires Lower(d) != Lower(e)
    ensures Lookup(Stored(store, connected, fault, d, result), connected, readFault, e) == Lookup(store, connected, readFault, e)
    ensures Lookup(Deleted(store, connected, fault, d), connected, readFault, e) == Lookup(store, connected, readFault, e)
  {
    CacheKeySameEntry(d, e);
  }

  /** Without a connection, or when the store call fails, nothing is read and nothing changes. */
  lemma InertWhenUnavailable(store: Store, connected: bool, fault: bool, d: string, result: DomainValidationResponse)
    requires !connected || fault
    ensures Lookup(store, connected, fault, d) == None
    ensures Stored(store, connected, fault, d, result) == store
    ensures Deleted(store, connected, fault, d) == store
  {
  }

  /** Read, write and delete depend on the domain only through its lower-case form. */
  lemma CaseInsensitive(store: Store, connected: bool, fault: bool, d: string, e: string, result: DomainValidationResponse)
    requires Lower(d) == Lower(e)
    ensures Lookup(store, connected, fault, d) == Lookup(store, connected, fault, e)
    ensures Stored(store, connected, fault, d, result) == Stored(store, connected, fault, e, result)
    ensures Deleted(store, connected, fault, d) == Deleted(store, connected, fault, e)
  {
    CacheKeySameEntry(d, e);
  }

  /** Writing the same result twice leaves the same store as writing it once. */
  lemma PutIdempotent(store: Store, connected: bool, fault: bool, d: string, result: DomainValidationResponse)
    ensures Stored(Stored(store, connected, fault, d, result), connected, fault, d, result) == Stored(store, connected, fault, d, result)
  {
  }

  /** The three answers of `get_cache_stats`, without the server's counters. */
  datatype StatsStatus = StatsDisconnected | StatsConnected | StatsError

  class CacheService {
    /** Whether a Redis client is held (`redis_client is not None`). */
    var connected: bool
    /** The contents of the Redis server. */
    var store: Store
    const ttl: int

    /** A new service holds no client; the server's contents are whatever they are. */
    constructor(backing: Store)
      ensures !connected && store == backing && ttl == CacheTtl
    {
      connected := false;
      store := backing;
      ttl := CacheTtl;
    }

    /** `connect`: keeps a client when the server answers the ping, and drops it otherwise; it never raises. */
    method Connect(reachable: bool)
      modifies this`connected
      ensures connected == reachable
    {
      if reachable {
        connected := true;
      } else {
        connected := false;
      }
    }

    /** `get_cached_validation`: reads without changing anything. */
    method GetCachedValidation(domain: string, fault: bool) returns (r: Option<DomainValidationResponse>)
      ensures r == Lookup(store, connected, fault, domain)
      ensures !connected ==> r == None
    {
      if !connected {
        return None;
      }
      if fault {
        return None;
      }
      var key := CacheKey(domain);
      if key in store {
        r := Some(store[key]);
      } else {
        r := None;
      }
    }

    /** `cache_validation_result`: a `setex` under the domain's key. */
    method CacheValidationResult(domain: string, result: DomainValidationResponse, fault: bool)
      modifies this`store
      ensures store == Stored(old(store), connected, fault, domain, result)
    {
      if !connected {
        return;
      }
      if !fault {
        store := store[CacheKey(domain) := result];
      }
    }

    /** `invalidate_domain_cache`: a `delete` of the domain's key. */
    method InvalidateDomainCache(domain: string, fault: bool)
      modifies this`store
      ensures store == Deleted(old(store), connected, fault, domain)
    {
      if !connected {
        return;
      }
      if !fault {
        store := store - {CacheKey(domain)};
      }
    }

    /** `get_cache_stats`: `"disconnected"` without a client, `"error"` when `info()` fails, else `"connected"`. */
    method GetCacheStats(infoFault: bool) returns (status: StatsStatus)
      ensures status == StatsDisconnected <==> !connected
      ensures status == StatsError <==> connected && infoFault
      ensures status == StatsConnected <==> connected && !infoFault
    {
      if !connected {
        return StatsDisconnected;
      }
      if infoFault {
        status := StatsError;
      } else {
        status := StatsConnected;
      }
    }
  }

  /** A service whose connection failed misses on every read and writes nothing. */
  method UnreachableServerExample(backing: Store, d: string, result: DomainValidationResponse)
    returns (hit: Option<DomainValidationResponse>)
    ensures hit == None
  {
    var cache := new CacheService(backing);
    cache.Connect(false);
    cache.CacheValidationResult(d, result, false);
    assert cache.store == backing;
    hit := cache.GetCachedValidation(d, false);
  }
}

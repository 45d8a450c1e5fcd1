/**
 * `CacheService` (services/cache_service.py): a Redis tier that is probed
 * lazily, in front of a directory holding one `<key>.json` file per key.
 * The Redis server's key space and the directory are fields the methods
 * update in place; each I/O outcome arrives as an `Io` argument. Every
 * method is proved to do what the matching function of CacheSpec says.
 */
module Cache {
  import opened Wrappers
  import opened Json
  import opened CacheSpec

  class CacheService {
    /** `redis_client is not None`; fixed by the constructor. */
    const redisConfigured: bool
    var redisEnabled: bool
    var redisConnectionTested: bool
    /** The Redis server's key space. */
    var redis: map<string, RedisEntry>
    /** The cache directory: file name to file text. */
    var files: map<string, string>

    function Snapshot(): State
      reads this
    {
      State(redisConfigured, redisEnabled, redisConnectionTested, redis, files)
    }

    predicate Valid()
      reads this
    {
      Inv(Snapshot())
    }

    /**
     * `__init__`: `redisUrl` is REDIS_URL, `fromUrlRaises` whether
     * `redis.from_url` rejected it; `server` and `directory` are what the
     * Redis server and the cache directory already hold.
     */
    constructor (redisUrl: Option<string>, fromUrlRaises: bool,
                 server: map<string, RedisEntry>, directory: map<string, string>)
      ensures Valid()
      ensures Snapshot() == Initial(ClientConfigured(redisUrl, fromUrlRaises), server, directory)
      ensures TierOf(Snapshot()) == Unprobed
    {
      redisConfigured := ClientConfigured(redisUrl, fromUrlRaises);
      redisEnabled := false;
      redisConnectionTested := false;
      redis := server;
      files := directory;
    }

    /** `_test_redis_connection`: probes once, then never changes the flags again. */
    method TestRedisConnection(pingOk: bool)
      requires Valid()
      modifies this`redisEnabled, this`redisConnectionTested
      ensures Valid() && redisConnectionTested
      ensures Snapshot() == Probe(old(Snapshot()), pingOk)
      ensures old(redisConnectionTested) ==> redisEnabled == old(redisEnabled)
    {
      if redisConnectionTested {
        return;
      }
      redisConnectionTested := true;
      if !redisConfigured {
        redisEnabled := false;
        return;
      }
      if pingOk {
        redisEnabled := true;
      } else {
        redisEnabled := false;
      }
    }

    /**
     * `get`: Redis first when enabled, then the file. Every Redis and file
     * read error is swallowed; only the existence check's error escapes.
     */
    method Get(key: string, io: Io) returns (r: Outcome<Option<Value>>)
      requires Valid()
      modifies this`redisEnabled, this`redisConnectionTested
      ensures Valid() && redisConnectionTested
      ensures (Snapshot(), r) == GetStep(old(Snapshot()), key, io)
      ensures redis == old(redis) && files == old(files)
    {
      TestRedisConnection(io.pingOk);
      if redisEnabled && redisConfigured {
        if io.redisRaises {
          redisEnabled := false;
        } else if key in redis && redis[key].text != "" {
          var decoded := Decode(redis[key].text);
          if decoded.Some? {
            return Returned(decoded);
          }
          redisEnabled := false;
        }
      }
      var name := FileName(key);
      if io.existsRaises {
        return Raised;
      }
      r := Returned(None);
      if name in files && !io.fileRaises {
        r := Returned(Decode(files[name]));
      }
    }

    /** `set`: SETEX when Redis is enabled; the file only when that was not done. */
    method Set(key: string, value: Value, io: Io, ttl: int := DefaultTtl) returns (ok: bool)
      requires Valid()
      modifies this
      ensures Valid() && redisConnectionTested
      ensures (Snapshot(), ok) == SetStep(old(Snapshot()), key, value, ttl, io)
    {
      TestRedisConnection(io.pingOk);
      var text := Encode(value);
      if redisEnabled && redisConfigured {
        if !io.redisRaises && SetexAccepts(ttl) {
          redis := redis[key := RedisEntry(text, ttl)];
          return true;
        }
      }
      if io.fileRaises {
        return false;
      }
      files := files[FileName(key) := text];
      ok := true;
    }

    /**
     * `delete`: both tiers, without probing; False when either deletion
     * raised. The existence check's error escapes after the Redis deletion.
     */
    method Delete(key: string, io: Io) returns (r: Outcome<bool>)
      requires Valid()
      modifies this`redis, this`files
      ensures Valid()
      ensures (Snapshot(), r) == DeleteStep(old(Snapshot()), key, io)
    {
      var success := true;
      if redisEnabled && redisConfigured {
        if io.redisRaises {
          success := false;
        } else {
          redis := redis - {key};
        }
      }
      var name := FileName(key);
      if io.existsRaises {
        return Raised;
      }
      if name in files {
        if io.fileRaises {
          success := false;
        } else {
          files := files - {name};
        }
      }
      r := Returned(success);
    }
  }

  function Article(): Value {
    Obj([Member("title", Str("X")), Member("tags", Arr([Str("a"), Str("b")]))])
  }

  /**
   * A caller's view: whatever REDIS_URL is, whatever the server and the
   * directory hold and however the probe goes, storing an article and
   * reading it back returns it, and after deleting it the read misses.
   */
  method ArticleScenario(redisUrl: Option<string>, server: map<string, RedisEntry>,
                         directory: map<string, string>, pingOk: bool)
    returns (stored: bool, fetched: Outcome<Option<Value>>, removed: Outcome<bool>,
             refetched: Outcome<Option<Value>>)
    ensures stored && removed == Returned(true)
    ensures fetched == Returned(Some(Article()))
    ensures refetched == Returned(None)
  {
    var io := NoFaults.(pingOk := pingOk);
    var cache := new CacheService(redisUrl, false, server, directory);
    ghost var s0 := cache.Snapshot();
    stored := cache.Set("article:42", Article(), io, 3600);
    fetched := cache.Get("article:42", io);
    RoundTrip(s0, "article:42", Article(), 3600, io, io);
    ghost var s2 := cache.Snapshot();
    removed := cache.Delete("article:42", io);
    DeleteRemoves(s2, "article:42", io);
    refetched := cache.Get("article:42", io);
    DeleteThenGetMisses(s2, "article:42", io, io);
  }
}

# Two-tier response cache: a Dafny model of `CacheService`

`CacheService` (services/cache_service.py) caches API responses in two tiers.
The fast tier is an optional Redis server. It is used only when REDIS_URL names
one, and it is probed lazily by the first `get` or `set`. The durable tier is a
directory with one file per key, named `<key>.json`. Both tiers hold the
`json.dumps` text of the value.

The fast tier's state is two flags, `redis_enabled` and
`redis_connection_tested`. Together they encode three states: unprobed,
available and unavailable.

- The probe moves the tier out of unprobed exactly once.
- A failed Redis read moves it from available to unavailable for good.
- A failed Redis write or delete changes neither flag.

This model has four modules:

- `Wrappers` holds `Option`, which stands for Python's `None` or a value, and
  `Outcome`, which is a call that either returns a value or raises.
- `Json` is a self-delimiting text codec over a JSON-like `Value`. It stands in
  for `json.dumps`/`json.loads`. `Decode(Encode(v)) == Some(v)` is proved, and
  encoded text is never empty, so Redis's `if value:` test always passes for
  text the cache wrote.
- `CacheSpec` gives the object's state as a datatype. It has the probe, `get`,
  `set` and `delete` as functions of that state and of an `Io` record. `Io`
  says whether the PING answers, whether the Redis command raises, whether
  the file operation raises, and whether the existence check on `<key>.json`
  raises. The module also runs sequences of calls (`Run`,
  `Replies`) and counts the PINGs and Redis commands they send. The lemmas state
  what the code promises over one call and over any sequence of calls.
- `Cache` has the class `CacheService`. Its fields are the flags, the Redis key
  space and the directory, and its methods update them in place. Each method is
  proved to leave exactly the state, and return exactly the result, that the
  matching `CacheSpec` function gives.

Where the code departs from what a two-tier cache would be expected to do,
the model follows the code:

- After a successful `setex`, `set` returns True without writing the file
  (lines 113-116). It does not write both tiers.
- `delete` never runs the probe (lines 130-159). A `delete` before any `get` or
  `set` therefore sees `redis_enabled` still False and leaves Redis untouched.
  `DeleteBeforeProbe` shows that a later `get` can still return the entry.
- `json.loads` of the Redis text sits inside the same `try` as the Redis read
  (lines 74-81). A malformed Redis payload therefore disables Redis just as a
  raising read does.
- A failed `setex` does not disable Redis, so an older Redis entry keeps being
  served after `set` returned True from the file write. `StaleAfterFailedSetex`
  states this.
- `cache_file.exists()` sits outside any `try` in `get` (line 85) and in
  `delete` (line 152). An `OSError` other than "not found", such as a file
  name longer than the file system allows, escapes to the caller. The model
  gives both operations a `Raised` result in that case. `delete` has by then
  already issued its Redis DEL.
- A `set` served by Redis writes no file (lines 113-116). Once the Redis entry
  expires, `get` answers from the directory as it was before the `set`.
  `ExpiredAfterRedisSet` states this. The value therefore does not outlive its
  ttl in the durable tier.
- Redis refuses SETEX with an expiry that is not positive, and the client then
  raises. The model writes this out as `SetexAccepts(ttl)`, so such a `set`
  takes the file path.

## Model

| member | source | states |
|---|---|---|
| `Json.DecodeEncode` | services/cache_service.py:110 | `json.loads(json.dumps(v))` gives back `v`: decoding the stored text returns the value that was encoded |
| `Json.Encode` | services/cache_service.py:76 | the stored text of any value is non-empty, so the truthiness test on the Redis reply passes for it |
| `CacheSpec.ClientConfigured` | services/cache_service.py:27-35 | a Redis client exists only when REDIS_URL is set (non-empty) and `redis.from_url` did not raise |
| `CacheSpec.Initial` | services/cache_service.py:19-22 | the constructed state keeps the invariant and is in the unprobed tier state |
| `CacheSpec.TierOf` | services/cache_service.py:21-22 | the flag pair encodes three tier states: not tested is unprobed, enabled is available, otherwise unavailable |
| `CacheSpec.FileNameInjective` | services/cache_service.py:84 | `<key>.json` names differ for different keys, so each key has its own file on a case-sensitive file system |
| `CacheSpec.ProbeOnce` | services/cache_service.py:39-57 | after a probe the tested flag is set; a second probe changes nothing; a probe never touches the stores; with no client it leaves Redis disabled |
| `CacheSpec.StepKeepsInv` | services/cache_service.py:39-159 | every operation keeps `enabled ==> tested && configured`, moves the tier only along unprobed → available/unavailable and available → unavailable, and never changes whether a client exists |
| `CacheSpec.RunKeepsInv` | services/cache_service.py:39-159 | the same invariant and legal tier move hold across any sequence of get, set and delete calls |
| `CacheSpec.PingAtMostOnce` | services/cache_service.py:39-52 | any sequence of calls sends at most one PING, and none once the probe has run; once tested, the flag stays set |
| `CacheSpec.ProbedAfterGetOrSet` | services/cache_service.py:69-70 | after any sequence containing a get or a set, the connection has been tested |
| `CacheSpec.StepWhileRedisOff` | services/cache_service.py:46-48 | with no client, or once disabled, one call sends no Redis command, leaves the Redis key space alone, does not depend on it and keeps Redis off |
| `CacheSpec.RedisOffIsForever` | services/cache_service.py:73-81 | once Redis is off, no later sequence of calls re-enables it, sends a Redis command, changes the Redis key space or reads it |
| `CacheSpec.NoClientNeverUsesRedis` | services/cache_service.py:27-48 | with no client configured, no sequence of calls pings, sends any Redis command, changes the Redis key space or has results that depend on it |
| `CacheSpec.NoClientNoPing` | services/cache_service.py:46-48 | with no client configured, the probe never pings |
| `CacheSpec.ReadFailureDisables` | services/cache_service.py:73-93 | a raising Redis read, or a Redis payload `json.loads` rejects, disables Redis with the tested flag kept set, and `get` answers from the file tier (or raises from the existence check) |
| `CacheSpec.ReadFailureDisablesForGood` | services/cache_service.py:74-81 | after a Redis read failure, whether the GET raised or the payload did not decode, Redis stays disabled and no later call sends it a command |
| `CacheSpec.DisablesOnlyOnReadFailure` | services/cache_service.py:73-81 | `get` lowers `redis_enabled` exactly when Redis was in use and the GET raised or returned non-empty text `json.loads` rejects; a plain miss leaves the state as the probe left it |
| `CacheSpec.GetPrefersRedis` | services/cache_service.py:72-77 | when Redis is enabled and holds readable text for the key, `get` returns the decoded Redis value whatever the file holds, and changes no state beyond the probe |
| `CacheSpec.GetFallsBackToFile` | services/cache_service.py:83-93 | otherwise `get` raises exactly when the existence check raises. Else it returns the decoded file: None if the file is missing, raises on read or fails to parse, and a value only if the file exists and was read |
| `CacheSpec.GetKeepsStores` | services/cache_service.py:59-93 | `get` changes neither store, always leaves the tested flag set and can only lower `redis_enabled` |
| `CacheSpec.SetViaRedis` | services/cache_service.py:110-116 | when Redis is enabled and SETEX succeeds, `set` returns True, stores the JSON text with its ttl in Redis and leaves the directory unchanged |
| `CacheSpec.SetViaFile` | services/cache_service.py:118-128 | otherwise `set` leaves Redis unchanged, writes the JSON text to `<key>.json`, and returns True exactly when the write did not raise |
| `CacheSpec.WriteFailureKeepsRedis` | services/cache_service.py:117-118 | `set` leaves `redis_enabled` as the probe left it, even when SETEX raised |
| `CacheSpec.RoundTrip` | services/cache_service.py:75-77 | with no Redis or file failure in either call and no expiry in between, `set(k, v)` then `get(k)` returns v, whichever tier served it and whatever the probe found |
| `CacheSpec.FileOnlyRoundTrip` | services/cache_service.py:120-125 | with no client configured, `set` writes `<key>.json` with the encoded value and a following `get` returns the value from the file alone |
| `CacheSpec.StaleAfterFailedSetex` | services/cache_service.py:113-125 | when SETEX raises but the file write works, `set` returns True, yet the next `get` returns the older Redis value |
| `CacheSpec.ExpiredAfterRedisSet` | services/cache_service.py:113-116 | after a `set` served by Redis, once the entry expires `get` returns what the directory held before the `set` (None when it held no file), not the value just stored |
| `CacheSpec.DeleteResult` | services/cache_service.py:140-159 | `delete` raises exactly when the existence check raises; otherwise it returns False exactly when the Redis delete raised (Redis in use) or the unlink raised (file present); a key in neither tier with Redis unused gives True |
| `CacheSpec.DeleteOnlyTouchesKey` | services/cache_service.py:130-159 | `delete` never probes and keeps both flags; every other key's Redis entry and file are unchanged |
| `CacheSpec.DeleteSidesIndependent` | services/cache_service.py:140-159 | the Redis DEL and the unlink are independent: a raising DEL still lets the file be removed (result False), a failed unlink or raising existence check keeps the DEL, and a side that was not attempted or raised is unchanged |
| `CacheSpec.DeleteRemoves` | services/cache_service.py:143-157 | with no failure, `delete` returns True and removes the file; it removes the Redis entry when Redis is in use and leaves Redis alone otherwise |
| `CacheSpec.DeleteThenGetMisses` | services/cache_service.py:140-159 | once probed, a failure-free `delete` makes the next `get` return None, unless that `get`'s existence check raises |
| `CacheSpec.DeleteBeforeProbe` | services/cache_service.py:21 | a `delete` before any probe leaves Redis untouched, so a `get` that then probes successfully still returns the Redis entry |
| `Cache.CacheService.constructor` | services/cache_service.py:19-37 | the object starts unprobed with Redis disabled; it has a client exactly when REDIS_URL is usable, and it holds the given server contents and directory |
| `Cache.CacheService.TestRedisConnection` | services/cache_service.py:39-57 | the flags become those of `Probe`: tested is set; on the first call `redis_enabled` is whether a client exists and the PING answered; later calls change nothing |
| `Cache.CacheService.Get` | services/cache_service.py:59-93 | the new flags and the result are those of `GetStep`: the Redis value, else the file's, else None, or the existence check's error; neither store changes |
| `Cache.CacheService.Set` | services/cache_service.py:95-128 | the new flags, stores and result are those of `SetStep`, with ttl defaulting to 3600 |
| `Cache.CacheService.Delete` | services/cache_service.py:130-159 | the new stores and result are those of `DeleteStep`: False when a deletion raised, or the existence check's error after the Redis DEL; the flags are not in its frame |
| `Cache.ArticleScenario` | services/cache_service.py:95-159 | whatever REDIS_URL, server contents, directory and probe outcome, storing an article and reading it back returns it, and after deleting it the read misses |

## Left out

- `close()` and all logging: they release a connection or write log lines, and neither changes state the operations read.
- `async`/`await` and concurrent calls: each operation is one atomic step. Interleavings of concurrent calls on the flags are not modelled.
- Wall-clock expiry in Redis: an entry keeps its `ttl` but never expires by itself. The one-call lemmas hold for any starting state, so they cover a key space the server has already pruned. The two-call lemmas (`RoundTrip`, `StaleAfterFailedSetex`, `DeleteBeforeProbe`, `ArticleScenario`) assume no entry expires between the calls; `ExpiredAfterRedisSet` states what happens when one does.
- The real JSON grammar, floats and Python values that `json` does not round-trip (tuples, non-string keys, NaN): values are the `Value` datatype. The text is a tagged format that only has to be non-empty and to decode back.
- `json.dumps` raising for a value it cannot serialise (line 110 sits outside any `try`): every `Value` serialises.
- `os.getenv`, `Path` and `mkdir`: the cache directory is a map from file name to text, created before use. Keys containing path separators, which `Path` would turn into sub-directories, are treated as plain names. File names are compared exactly, so on a case-insensitive file system, where keys `A` and `a` share one file, the model keeps two.
- `Cache.CacheService.Set`: a file write that fails after opening the file can leave it truncated. The model leaves the file unchanged on failure. Any text there still reads back as None when it does not decode.
- `Cache.CacheService.Delete`: a Redis DEL that raises after the server deleted the key is modelled as leaving the key in place.
- `Cache.CacheService.Get`: a cached JSON `null` comes back as `Some(Null)`. Python's caller sees `None` for both a miss and a stored null.
- The test files under tests/: they exercise HTTP endpoints with the cache mocked out and contain no cache logic.

/**
 * The in-memory module cache of the browser build
 * (grid-cli/v0-multibuild/cache_wasm.go): bytes stored under their hash.
 */
module WasmCache {
  import opened Wrappers

  const NotFound := "data not found"

  /** What a load of `hash` from `cache` answers: the bytes stored, or the error "data not found". */
  function Loaded(cache: map<string, seq<byte>>, hash: string): (r: Result<seq<byte>>)
    ensures r.Ok? <==> hash in cache
    ensures r.Ok? ==> r.value == cache[hash]
    ensures r.Err? ==> r.error == NotFound
  {
    if hash in cache then Ok(cache[hash]) else Err(NotFound)
  }

  /**
   * A load after a save of `data` under `hash` answers `data` for that hash
   * and what it answered before for every other hash.
   */
  lemma SavedThenLoaded(cache: map<string, seq<byte>>, hash: string, data: seq<byte>, other: string)
    ensures Loaded(cache[hash := data], hash) == Ok(data)
    ensures other != hash ==> Loaded(cache[hash := data], other) == Loaded(cache, other)
  {
  }

  /** A second save under the same hash replaces the first. */
  lemma SaveOverwrites(cache: map<string, seq<byte>>, hash: string, first: seq<byte>, second: seq<byte>)
    ensures cache[hash := first][hash := second] == cache[hash := second]
  {
  }

  /** `WasmCacheStorage`. */
  class WasmCacheStorage {
    var cache: map<string, seq<byte>>

    /** `Save`: stores `data` under `hash`, replacing what was there; it never fails. */
    method Save(hash: string, data: seq<byte>) returns (err: Option<string>)
      modifies this
      ensures err == None
      ensures cache == old(cache)[hash := data]
    {
      cache := cache[hash := data];
      return None;
    }

    /** `Load`: the bytes stored under `hash`, or the error "data not found"; the cache is left as it is. */
    method Load(hash: string) returns (r: Result<seq<byte>>)
      ensures r == Loaded(cache, hash)
    {
      if hash !in cache {
        return Err(NotFound);
      }
      return Ok(cache[hash]);
    }
  }

  /** A save followed by a load of the same hash gives the bytes saved, with no error. */
  method SaveThenLoad(s: WasmCacheStorage, hash: string, data: seq<byte>) returns (r: Result<seq<byte>>)
    modifies s
    ensures r == Ok(data)
  {
    var _ := s.Save(hash, data);
    r := s.Load(hash);
    SavedThenLoaded(old(s.cache), hash, data, hash);
  }
}

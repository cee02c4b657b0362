/**
 * The process-wide cache of text analyzer configurations, keyed by the
 * argument string an analyzer was made from: the first configuration stored
 * under a key is the one every later analyzer with that key uses.
 */
module TextCache {
  import opened Wrappers
  import opened Bytes
  import opened Json
  import opened TextOptions
  import Stopwords
  import TextConfig

  /** The options and the built stopword set an analyzer is constructed from. */
  datatype Cached = Cached(options: Options, stopwords: set<Bytes>)

  class Cache {
    var entries: map<Bytes, Cached>

    constructor ()
      ensures entries == map[]
    {
      entries := map[];
    }

    /** `construct(key, options, stopwords)`: stores the entry unless the key has one already. */
    method ConstructWith(key: Bytes, o: Options, words: set<Bytes>) returns (c: Cached)
      modifies this
      ensures key in entries && c == entries[key]
      ensures key in old(entries) ==> entries == old(entries) && c == old(entries)[key]
      ensures key !in old(entries) ==> entries == old(entries)[key := Cached(o, words)]
    {
      if key !in entries {
        entries := entries[key := Cached(o, words)];
      }
      c := entries[key];
    }

    /**
     * `construct(key)`: the cached entry, or else default options for the
     * locale named by the key with their stopwords built, stored under the
     * key; None when those stopwords cannot be loaded.
     */
    method ConstructFromKey(key: Bytes, fs: Stopwords.FsEnv, language: Bytes -> Bytes) returns (c: Option<Cached>)
      modifies this
      ensures key in old(entries) ==> c == Some(old(entries)[key]) && entries == old(entries)
      ensures key !in old(entries) ==>
        var built := Stopwords.BuildStopwords(Defaults(key), fs, language);
        && (built.None? ==> c.None? && entries == old(entries))
        && (built.Some? ==>
              c == Some(Cached(Defaults(key), built.value)) && entries == old(entries)[key := c.value])
    {
      if key in entries {
        return Some(entries[key]);
      }
      var o := Defaults(key);
      var built := Stopwords.BuildStopwords(o, fs, language);
      if built.None? {
        return None;
      }
      var stored := ConstructWith(key, o, built.value);
      return Some(stored);
    }

    /**
     * `make_json`: a bare JSON string takes the key path with the whole
     * argument text (quotes included) as both key and locale name; an object
     * is parsed and its stopwords built, each time and before the cache is
     * consulted, then stored under the argument text unless an entry exists.
     */
    method MakeJson(args: Bytes, parsed: Option<Json>, fs: Stopwords.FsEnv, language: Bytes -> Bytes)
      returns (c: Option<Cached>)
      modifies this
      ensures parsed.None? ==> c.None? && entries == old(entries)
      ensures parsed.Some? && !parsed.value.JString? && TextConfig.ParseOptions(parsed.value).None? ==>
        c.None? && entries == old(entries)
      ensures parsed.Some? && !parsed.value.JString? && TextConfig.ParseOptions(parsed.value).Some? ==>
        var o := TextConfig.ParseOptions(parsed.value).value;
        var built := Stopwords.BuildStopwords(o, fs, language);
        && (built.None? ==> c.None? && entries == old(entries))
        && (built.Some? && args in old(entries) ==> c == Some(old(entries)[args]) && entries == old(entries))
        && (built.Some? && args !in old(entries) ==>
              c == Some(Cached(o, built.value)) && entries == old(entries)[args := c.value])
      ensures parsed.Some? && parsed.value.JString? && args in old(entries) ==>
        c == Some(old(entries)[args]) && entries == old(entries)
      ensures parsed.Some? && parsed.value.JString? && args !in old(entries) ==>
        var built := Stopwords.BuildStopwords(Defaults(args), fs, language);
        && (built.None? ==> c.None? && entries == old(entries))
        && (built.Some? ==>
              c == Some(Cached(Defaults(args), built.value)) && entries == old(entries)[args := c.value])
    {
      if parsed.None? {
        return None;
      }
      if parsed.value.JString? {
        c := ConstructFromKey(args, fs, language);
        return;
      }
      var o := TextConfig.ParseOptions(parsed.value);
      if o.None? {
        return None;
      }
      var built := Stopwords.BuildStopwords(o.value, fs, language);
      if built.None? {
        return None;
      }
      var stored := ConstructWith(args, o.value, built.value);
      return Some(stored);
    }
  }

  /** The same key twice gives the first configuration both times. */
  method FirstInsertWins(cache: Cache, key: Bytes, o1: Options, w1: set<Bytes>, o2: Options, w2: set<Bytes>)
    returns (first: Cached, second: Cached)
    requires key !in cache.entries
    modifies cache
    ensures first == second == Cached(o1, w1)
  {
    first := cache.ConstructWith(key, o1, w1);
    second := cache.ConstructWith(key, o2, w2);
  }
}

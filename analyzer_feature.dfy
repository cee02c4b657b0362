/**
 * The analyzer registry: the identity analyzer, the analyzer pool with its
 * packed configuration buffer, and the rules by which pools are inserted
 * into and removed from the map of analyzers by name.
 */
module AnalyzerFeature {
  import opened Wrappers
  import opened ErrorCodes
  import opened AnalyzerNames

  // ---------------------------------------------------------------------------
  // The identity analyzer
  // ---------------------------------------------------------------------------

  /** The analyzer whose one token is its whole input. */
  class IdentityAnalyzer {
    /** `_empty`: no token pending. */
    var empty: bool
    /** `_value`: the pending input; None is NIL. */
    var value: Option<string>
    /** The term attribute. */
    var term: Option<string>

    constructor ()
      ensures empty && value.None? && term.None?
    {
      empty, value, term := true, None, None;
    }

    /** `reset(data)`: the input becomes the pending token; always succeeds. */
    method Reset(data: Option<string>) returns (r: bool)
      modifies this`empty, this`value
      ensures r && !empty && value == data
    {
      empty, value := false, data;
      r := !empty;
    }

    /**
     * `next()`: publishes the pending value as the term, which is NIL when
     * nothing was pending, and reports whether something was.
     */
    method Next() returns (r: bool)
      modifies this
      ensures r == !old(empty)
      ensures term == old(value) && empty && value.None?
    {
      var wasEmpty := empty;
      term := value;
      empty, value := true, None;
      r := !wasEmpty;
    }
  }

  /** After `reset(data)` the analyzer yields `data` once, then nothing. */
  method IdentityYieldsInputOnce(a: IdentityAnalyzer, data: string) returns (first: bool, token: Option<string>, second: bool)
    modifies a
    ensures first && token == Some(data) && !second
  {
    var ok := a.Reset(Some(data));
    first := a.Next();
    token := a.term;
    second := a.Next();
  }

  // ---------------------------------------------------------------------------
  // The analyzer pool
  // ---------------------------------------------------------------------------

  /** An `irs::flags` member: the term features an analyzer may ask for. */
  datatype Feature = Frequency | Norm | Position | Other(name: string)

  /** A `string_ref` into the configuration buffer, by offset and size. */
  datatype Slice = Slice(offset: nat, size: nat)

  /** The characters a NIL reference compares with: none. */
  function Content(s: Option<string>): string
  {
    if s.None? then [] else s.value
  }

  class AnalyzerPool {
    const name: string
    /** `_config`: type, then properties, then the key, back to back. */
    var config: string
    var key: Option<Slice>
    var typ: Option<Slice>
    var properties: Option<Slice>
    var features: set<Feature>

    /** Every reference points inside the buffer. */
    ghost predicate Valid()
      reads this
    {
      && Fits(key) && Fits(typ) && Fits(properties)
    }

    predicate Fits(s: Option<Slice>)
      reads this
    {
      s.Some? ==> s.value.offset + s.value.size <= |config|
    }

    function Read(s: Option<Slice>): (r: Option<string>)
      reads this
      requires Fits(s)
      ensures r.None? <==> s.None?
      ensures r.Some? ==> |r.value| == s.value.size
    {
      if s.None? then None else Some(config[s.value.offset..s.value.offset + s.value.size])
    }

    /** `type()`. */
    function Type(): Option<string>
      reads this
      requires Valid()
    {
      Read(typ)
    }

    /** `properties()`. */
    function Properties(): Option<string>
      reads this
      requires Valid()
    {
      Read(properties)
    }

    /** The `_key` reference. */
    function Key(): Option<string>
      reads this
      requires Valid()
    {
      Read(key)
    }

    constructor (n: string)
      ensures name == n && config == [] && features == {}
      ensures Valid() && Type().None? && Properties().None? && Key().None?
    {
      name, config := n, [];
      key, typ, properties := None, None, None;
      features := {};
    }

    /**
     * `init(type, properties, features)`: when an analyzer can be made from
     * the type and properties (never for an empty type), packs them into the
     * buffer and points `type()` and `properties()` at them; otherwise leaves
     * the pool uninitialized with everything NIL. Either way the key is NIL.
     */
    method Init(t: Option<string>, p: Option<string>, fs: set<Feature>, instantiate: (string, string) -> bool)
      returns (r: bool)
      modifies this
      ensures Valid() && Key().None?
      ensures r <==> Content(t) != [] && instantiate(Content(t), Content(p))
      ensures r ==> config == Content(t) + Content(p) && Type() == t && Properties() == p && features == fs
      ensures !r ==> config == [] && Type().None? && Properties().None? && features == {}
    {
      var made := Content(t) != [] && instantiate(Content(t), Content(p));
      if made {
        config := Content(t) + Content(p);
        key, typ, properties := None, None, None;
        if t.Some? {
          typ := Some(Slice(0, |t.value|));
        }
        if p.Some? {
          properties := Some(Slice(if typ.None? then 0 else typ.value.size, |p.value|));
        }
        features := fs;
        assert config[0..|Content(t)|] == Content(t);
        assert config[|Content(t)|..|Content(t)| + |Content(p)|] == Content(p);
        return true;
      }
      config := [];
      key, typ, properties := None, None, None;
      features := {};
      return false;
    }

    /**
     * `setKey(key)`: appends the key to the buffer and points `_key` at it,
     * re-deriving `type()` and `properties()` at their old offsets so that
     * they read the same; a NIL key only makes `_key` NIL.
     */
    method SetKey(k: Option<string>)
      requires Valid()
      modifies this`config, this`key
      ensures Valid() && Key() == k
      ensures Type() == old(Type()) && Properties() == old(Properties())
      ensures k.None? ==> config == old(config)
      ensures k.Some? ==> config == old(config) + k.value
    {
      if k.None? {
        key := None;
        return;
      }
      var keyOffset := |config|;
      ghost var before := config;
      config := config + k.value;
      key := Some(Slice(keyOffset, |k.value|));
      // the type and properties references are re-derived at their offsets,
      // which are unchanged by the append
      if typ.Some? {
        AppendKeepsSlice(before, k.value, typ.value);
      }
      if properties.Some? {
        AppendKeepsSlice(before, k.value, properties.value);
      }
      assert config[keyOffset..keyOffset + |k.value|] == k.value;
    }
  }

  /** Appending to a buffer leaves what a reference into it reads unchanged. */
  lemma AppendKeepsSlice(before: string, extra: string, s: Slice)
    requires s.offset + s.size <= |before|
    ensures (before + extra)[s.offset..s.offset + s.size] == before[s.offset..s.offset + s.size]
  {
  }

  /** `equalAnalyzer`: the pool makes analyzers of this type, properties and features. */
  predicate EqualAnalyzer(pool: AnalyzerPool, t: Option<string>, p: Option<string>, fs: set<Feature>)
    reads pool
    requires pool.Valid()
  {
    Content(t) == Content(pool.Type()) && Content(p) == Content(pool.Properties()) && fs == pool.features
  }

  /**
   * `equalAnalyzer` compares `string_ref`s by their characters: a NIL type or
   * properties reference is equal to an empty one, and every pool is equal
   * to its own configuration.
   */
  lemma EqualAnalyzerByContent(pool: AnalyzerPool, t: Option<string>, p: Option<string>, fs: set<Feature>)
    requires pool.Valid()
    ensures EqualAnalyzer(pool, t, p, fs) <==> EqualAnalyzer(pool, Some(Content(t)), Some(Content(p)), fs)
    ensures EqualAnalyzer(pool, None, p, fs) <==> EqualAnalyzer(pool, Some([]), p, fs)
    ensures EqualAnalyzer(pool, t, None, fs) <==> EqualAnalyzer(pool, t, Some([]), fs)
    ensures EqualAnalyzer(pool, pool.Type(), pool.Properties(), pool.features)
    ensures EqualAnalyzer(pool, t, p, fs) ==> fs == pool.features
  {
  }

  /** A pool initialized from a configuration is equal to it, and stays so once its key is set. */
  method InitThenSetKeyKeepsConfiguration(
    pool: AnalyzerPool, t: Option<string>, p: Option<string>, fs: set<Feature>,
    instantiate: (string, string) -> bool, k: Option<string>)
    returns (ok: bool)
    modifies pool
    ensures ok <==> Content(t) != [] && instantiate(Content(t), Content(p))
    ensures pool.Valid() && pool.Key() == (if ok then k else None)
    ensures ok ==> EqualAnalyzer(pool, t, p, fs)
  {
    ok := pool.Init(t, p, fs, instantiate);
    if ok {
      pool.SetKey(k);
    }
  }

  // ---------------------------------------------------------------------------
  // The registry
  // ---------------------------------------------------------------------------

  /** `ANALYZER_PROPERTIES_SIZE_MAX`: 1 MiB. */
  const ANALYZER_PROPERTIES_SIZE_MAX: nat := 1024 * 1024

  /** The features arangod supports: frequency, norm, and position when frequency is there too. */
  predicate FeaturesSupported(fs: set<Feature>)
  {
    && (forall f :: f in fs ==> !f.Other?)
    && (Position in fs ==> Frequency in fs)
  }

  /** The feature loop of `emplaceAnalyzer`: stops at the first feature it rejects. */
  method CheckFeatures(fs: set<Feature>) returns (ok: bool)
    ensures ok == FeaturesSupported(fs)
  {
    var rest := fs;
    while rest != {}
      invariant rest <= fs
      invariant forall g :: g in fs && g !in rest ==> !g.Other? && (g == Position ==> Frequency in fs)
      decreases rest
    {
      var f :| f in rest;
      if f.Other? || (f == Position && Frequency !in fs) {
        return false;
      }
      rest := rest - {f};
    }
    return true;
  }

  datatype EmplaceError = InvalidName | UnsupportedFeature | PropertiesTooLarge | NoPool | InitFailed | NameCollision

  datatype EmplaceResult =
    | Emplaced(pool: AnalyzerPool, inserted: bool)
    | Rejected(code: ErrorCode, why: EmplaceError)

  class AnalyzerRegistry {
    /** The analyzers by name; an entry may hold a null pool. */
    var analyzers: map<string, AnalyzerPool?>

    constructor ()
      ensures analyzers == map[]
    {
      analyzers := map[];
    }

    /**
     * `emplaceAnalyzer`: checks the name, the features and the size of the
     * properties; an existing entry under the name is returned when it is
     * equal to the configuration and is a name collision otherwise; a new
     * pool is inserted, initialized, and erased again when it cannot be.
     */
    method EmplaceAnalyzer(
      name: string, t: Option<string>, p: Option<string>, fs: set<Feature>,
      allowedName: string -> bool, instantiate: (string, string) -> bool)
      returns (r: EmplaceResult)
      requires forall n :: n in analyzers && analyzers[n] != null ==> analyzers[n].Valid()
      modifies this
      ensures forall n :: n in analyzers && analyzers[n] != null ==> analyzers[n].Valid()
      ensures r.Rejected? ==> r.code == BadParameter && analyzers == old(analyzers)
      ensures !allowedName(Split(name).1) ==> r == Rejected(BadParameter, InvalidName)
      ensures allowedName(Split(name).1) && !FeaturesSupported(fs) ==> r == Rejected(BadParameter, UnsupportedFeature)
      ensures allowedName(Split(name).1) && FeaturesSupported(fs) && |Content(p)| > ANALYZER_PROPERTIES_SIZE_MAX ==>
        r == Rejected(BadParameter, PropertiesTooLarge)
      ensures allowedName(Split(name).1) && FeaturesSupported(fs) && |Content(p)| <= ANALYZER_PROPERTIES_SIZE_MAX ==>
        && (name in old(analyzers) && old(analyzers)[name] == null ==> r == Rejected(BadParameter, NoPool))
        && (name in old(analyzers) && old(analyzers)[name] != null ==>
              var existing := old(analyzers)[name];
              && (!EqualAnalyzer(existing, t, p, fs) ==> r == Rejected(BadParameter, NameCollision))
              && (EqualAnalyzer(existing, t, p, fs) ==> r == Emplaced(existing, false)))
        && (name !in old(analyzers) ==>
              && (Content(t) != [] && instantiate(Content(t), Content(p)) <==> r.Emplaced?)
              && (r.Emplaced? ==> r.inserted && fresh(r.pool) && analyzers == old(analyzers)[name := r.pool]
                                  && r.pool.name == name && r.pool.Valid() && r.pool.Key().None?
                                  && EqualAnalyzer(r.pool, t, p, fs))
              && (r.Rejected? ==> r.why == InitFailed))
    {
      var _, suffix := SplitAnalyzerName(name);
      if !allowedName(suffix) {
        return Rejected(BadParameter, InvalidName);
      }
      var supported := CheckFeatures(fs);
      if !supported {
        return Rejected(BadParameter, UnsupportedFeature);
      }
      if |Content(p)| > ANALYZER_PROPERTIES_SIZE_MAX {
        return Rejected(BadParameter, PropertiesTooLarge);
      }
      if name in analyzers {
        var existing := analyzers[name];
        if existing == null {
          return Rejected(BadParameter, NoPool);
        }
        if !EqualAnalyzer(existing, t, p, fs) {
          return Rejected(BadParameter, NameCollision);
        }
        return Emplaced(existing, false);
      }
      var pool := new AnalyzerPool(name);
      analyzers := analyzers[name := pool];
      var ok := pool.Init(t, p, fs, instantiate);
      if !ok {
        analyzers := analyzers - {name};
        assert analyzers == old(analyzers);
        return Rejected(BadParameter, InitFailed);
      }
      return Emplaced(pool, true);
    }

    /**
     * The checks `remove` makes before it touches the persisted store: a
     * built-in (unprefixed) name is forbidden, an unknown name is not found,
     * a null entry is erased and not found, a pool in use elsewhere (use
     * count above 1) is a conflict unless forced; on a DB-server the entry is
     * then erased, elsewhere the persisted removal follows.
     */
    method Remove(name: string, force: bool, useCount: nat, isDbServer: bool) returns (r: RemoveOutcome)
      modifies this
      ensures Split(name).0.None? ==> r == Refused(Forbidden) && analyzers == old(analyzers)
      ensures Split(name).0.Some? && name !in old(analyzers) ==>
        r == Refused(DocumentNotFound) && analyzers == old(analyzers)
      ensures Split(name).0.Some? && name in old(analyzers) && old(analyzers)[name] == null ==>
        r == Refused(DocumentNotFound) && analyzers == old(analyzers) - {name}
      ensures Split(name).0.Some? && name in old(analyzers) && old(analyzers)[name] != null ==>
        && (!force && useCount > 1 ==> r == Refused(Conflict) && analyzers == old(analyzers))
        && (!(!force && useCount > 1) && isDbServer ==> r == Erased && analyzers == old(analyzers) - {name})
        && (!(!force && useCount > 1) && !isDbServer ==> r == PersistedRemoval && analyzers == old(analyzers))
    {
      var prefix, _ := SplitAnalyzerName(name);
      if prefix.None? {
        return Refused(Forbidden);
      }
      if name !in analyzers {
        return Refused(DocumentNotFound);
      }
      if analyzers[name] == null {
        analyzers := analyzers - {name};
        return Refused(DocumentNotFound);
      }
      if !force && useCount > 1 {
        return Refused(Conflict);
      }
      if isDbServer {
        analyzers := analyzers - {name};
        return Erased;
      }
      return PersistedRemoval;
    }
  }

  /** How `remove` ends: refused with an error, erased, or handed on to the persisted store. */
  datatype RemoveOutcome = Refused(code: ErrorCode) | Erased | PersistedRemoval

  /** Emplacing the same configuration twice gives the same pool, inserted once. */
  method EmplaceTwiceSamePool(
    reg: AnalyzerRegistry, name: string, t: Option<string>, p: Option<string>, fs: set<Feature>,
    allowedName: string -> bool, instantiate: (string, string) -> bool)
    returns (first: EmplaceResult, second: EmplaceResult)
    requires name !in reg.analyzers
    requires forall n :: n in reg.analyzers && reg.analyzers[n] != null ==> reg.analyzers[n].Valid()
    modifies reg
    ensures first.Emplaced? ==> first.inserted && second == Emplaced(first.pool, false)
  {
    first := reg.EmplaceAnalyzer(name, t, p, fs, allowedName, instantiate);
    second := reg.EmplaceAnalyzer(name, t, p, fs, allowedName, instantiate);
  }
}

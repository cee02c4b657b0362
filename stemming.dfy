/**
 * The single-token stemming analyzer: `reset` converts the whole input to
 * UTF-8, stems it as one word if a Snowball stemmer exists for the locale's
 * language, and `next` then reports that one token exactly once.
 */
module StemmingTokenStream {
  import opened Wrappers
  import opened Bytes
  import opened Json

  /** A Snowball stemmer handle. */
  type Stemmer = nat

  /**
   * The locale library and Snowball, as seen by the analyzer. `toInternal`
   * is the conversion of the input to UTF-8 under a locale (None on an
   * invalid sequence); `stemmerFor` is `sb_stemmer_new` for the locale's
   * language (None when Snowball has no stemmer for it); `stem` is
   * `sb_stemmer_stem` (None when it yields `nullptr`); `name` is the
   * canonical name of the locale built from a locale name.
   */
  datatype StemEnv = StemEnv(
    name: Bytes -> Bytes,
    toInternal: (Bytes, Bytes) -> Option<Bytes>,
    stemmerFor: Bytes -> Option<Stemmer>,
    stem: (Stemmer, Bytes) -> Option<Bytes>)

  /** `resize(INT_MAX)` of an over-long buffer. */
  function TruncateToInt(b: Bytes): (r: Bytes)
    ensures |r| <= INT32_MAX && r <= b
    ensures |b| <= INT32_MAX ==> r == b
    ensures |b| > INT32_MAX ==> |r| == INT32_MAX
  {
    if |b| > INT32_MAX then b[..INT32_MAX] else b
  }

  /** The term of a successful `reset`, given the stemmer and the UTF-8 input. */
  function StemmedTerm(env: StemEnv, stemmer: Option<Stemmer>, encoded: Bytes): (r: Bytes)
  {
    if stemmer.None? then encoded
    else
      var word := TruncateToInt(encoded);
      env.stem(stemmer.value, word).GetOr(word)
  }

  /**
   * The term is the stemmer's output when there is a stemmer and it yields
   * one; otherwise it is the encoded input, cut to INT_MAX bytes only when a
   * stemmer was asked.
   */
  lemma StemmedTermCases(env: StemEnv, stemmer: Option<Stemmer>, encoded: Bytes)
    ensures stemmer.None? ==> StemmedTerm(env, stemmer, encoded) == encoded
    ensures stemmer.Some? && env.stem(stemmer.value, TruncateToInt(encoded)).Some? ==>
      StemmedTerm(env, stemmer, encoded) == env.stem(stemmer.value, TruncateToInt(encoded)).value
    ensures stemmer.Some? && env.stem(stemmer.value, TruncateToInt(encoded)).None? ==>
      StemmedTerm(env, stemmer, encoded) == TruncateToInt(encoded)
    ensures |encoded| <= INT32_MAX && (stemmer.None? || env.stem(stemmer.value, encoded).None?) ==>
      StemmedTerm(env, stemmer, encoded) == encoded
  {
  }

  class StemmingStream {
    const env: StemEnv
    /** The locale name the analyzer was constructed with. */
    const locale: Bytes
    /** Created at the first `reset`, and retried by every `reset` while Snowball has none. */
    var stemmer: Option<Stemmer>
    var termBuf: Bytes
    var term: Option<Bytes>
    var eof: bool
    var offsetStart: nat
    var offsetEnd: nat
    var payload: Bytes

    ghost predicate Valid()
      reads this
    {
      offsetStart < UINT32_LIMIT && offsetEnd < UINT32_LIMIT
    }

    constructor (e: StemEnv, name: Bytes)
      ensures Valid() && env == e && locale == name
      ensures stemmer.None? && eof && term.None?
    {
      env := e;
      locale := name;
      stemmer := None;
      termBuf := [];
      term := None;
      eof := true;
      offsetStart, offsetEnd := 0, 0;
      payload := [];
    }

    /** `next`: true once after a successful `reset`. */
    method Next() returns (r: bool)
      requires Valid()
      modifies this`eof
      ensures Valid()
      ensures r == !old(eof) && eof
    {
      if eof {
        return false;
      }
      eof := true;
      return true;
    }

    /** `reset`: fails only when the input does not convert to UTF-8. */
    method Reset(data: Bytes) returns (r: bool)
      requires Valid()
      modifies this
      ensures Valid()
      ensures old(stemmer).Some? ==> stemmer == old(stemmer)
      ensures old(stemmer).None? ==> stemmer == env.stemmerFor(locale)
      ensures r == env.toInternal(locale, data).Some?
      ensures !r ==> (term.None? && termBuf == [] && eof
        && offsetStart == old(offsetStart) && offsetEnd == old(offsetEnd) && payload == old(payload))
      ensures r ==> (!eof && offsetStart == 0 && offsetEnd == U32(|data|) && payload == data
        && term == Some(StemmedTerm(env, stemmer, env.toInternal(locale, data).value)))
    {
      if stemmer.None? {
        stemmer := env.stemmerFor(locale);
      }
      term := None;
      termBuf := [];
      eof := true;
      var converted := env.toInternal(locale, data);
      if converted.None? {
        return false;
      }
      termBuf := termBuf + converted.value;
      assert termBuf == converted.value;
      offsetStart := 0;
      offsetEnd := U32(|data|);
      payload := data;
      eof := false;
      if stemmer.Some? {
        if |termBuf| > INT32_MAX {
          termBuf := termBuf[..INT32_MAX];
        }
        var stemmed := env.stem(stemmer.value, termBuf);
        if stemmed.Some? {
          term := stemmed;
          return true;
        }
      }
      term := Some(termBuf);
      return true;
    }
  }

  /** A successful `reset` yields exactly one token, then the stream is exhausted. */
  method ResetThenDrain(s: StemmingStream, data: Bytes) returns (ok: bool, first: bool, second: bool)
    requires s.Valid()
    modifies s
    ensures ok ==> first && !second
    ensures !ok ==> !first && !second
  {
    ok := s.Reset(data);
    first := s.Next();
    second := s.Next();
  }

  /** `make_json`: the locale name, from a bare string or an object's string `locale`. */
  function MakeJson(parsed: Option<Json>): (r: Option<Bytes>)
    ensures parsed.None? ==> r.None?
    ensures parsed.Some? && parsed.value.JString? ==> r == Some(CStr(parsed.value.s))
    ensures parsed.Some? && parsed.value.JObject? ==> r == CStrMember(parsed.value, "locale")
    ensures parsed.Some? && !parsed.value.JString? && !parsed.value.JObject? ==> r.None?
  {
    match parsed
    case None => None
    case Some(JString(s)) => Some(CStr(s))
    case Some(JObject(_)) => CStrMember(parsed.value, "locale")
    case Some(_) => None
  }

  /** `make_json_config`: an object holding the locale's canonical name, all its bytes kept. */
  function WriteJsonConfig(env: StemEnv, locale: Bytes): (r: Json)
    ensures r.JObject? && r.members.Keys == {"locale"}
    ensures StringMember(r, "locale") == Some(env.name(locale))
  {
    JObject(map["locale" := JString(env.name(locale))])
  }

  /**
   * The written configuration reads back as the locale's canonical name up
   * to its first 0 byte, so as that name when it holds none.
   */
  lemma JsonConfigRoundTrip(env: StemEnv, locale: Bytes)
    ensures MakeJson(Some(WriteJsonConfig(env, locale))) == Some(CStr(env.name(locale)))
    ensures 0 !in env.name(locale) ==> MakeJson(Some(WriteJsonConfig(env, locale))) == Some(env.name(locale))
  {
    assert Member(WriteJsonConfig(env, locale), "locale") == Some(JString(env.name(locale)));
  }
}

/**
 * The locale-aware text analyzer: `reset` prepares the ICU objects it needs
 * and segments the input into words, and `next` runs each word through the
 * term pipeline (normalize, case-fold, remove accents, drop stopwords,
 * stem) until one survives.
 */
module TextTokenStream {
  import opened Wrappers
  import opened Bytes
  import opened TextOptions

  /** The UTF-16 code units of an ICU string. */
  type UText = seq<nat>

  /** An ICU or Snowball object; only whether it exists matters. */
  type Handle = nat

  /**
   * A boundary reported by the word break iterator: its position, and
   * whether the segment ending there is a word (its rule status is not
   * UBRK_WORD_NONE).
   */
  datatype Boundary = Boundary(pos: nat, isWord: bool)

  /**
   * ICU, Snowball and the locale library as the analyzer sees them. The
   * creators yield None when ICU reports an error or returns a null object.
   * `segment` lists the boundaries the break iterator of a locale reports
   * after position 0 for a text, in order.
   */
  datatype TextEnv = TextEnv(
    icuLocale: Bytes -> Option<Bytes>,
    nfc: Option<Handle>,
    accentRemover: Option<Handle>,
    breakIteratorFor: Bytes -> Option<Handle>,
    stemmerFor: Bytes -> Option<Handle>,
    toInternal: (Bytes, Bytes) -> Option<Bytes>,
    fromUtf8: Bytes -> UText,
    segment: (Bytes, UText) -> seq<Boundary>,
    normalize: UText -> Option<UText>,
    toLower: (Bytes, UText) -> UText,
    toUpper: (Bytes, UText) -> UText,
    removeAccents: UText -> UText,
    toUtf8: UText -> Bytes,
    stem: (Handle, Bytes) -> Option<Bytes>)

  /** What `process_term` reads of the analyzer's state. */
  datatype Pipeline = Pipeline(
    env: TextEnv,
    icuLocale: Bytes,
    caseConvert: CaseConvert,
    transliterate: bool,
    stemmer: Option<Handle>,
    stopwords: set<Bytes>)

  // ---------------------------------------------------------------------------
  // The term pipeline
  // ---------------------------------------------------------------------------

  /** A word normalized (or left as is when that fails), case-converted, stripped of accents, as UTF-8. */
  function ProcessedWord(p: Pipeline, word: UText): Bytes
  {
    var normalized := p.env.normalize(word).GetOr(word);
    var cased :=
      match p.caseConvert
      case Lower => p.env.toLower(p.icuLocale, normalized)
      case Upper => p.env.toUpper(p.icuLocale, normalized)
      case NoConvert => normalized;
    var collated := if p.transliterate then p.env.removeAccents(cased) else cased;
    p.env.toUtf8(collated)
  }

  /** The term of a word, or None when it is a stopword. */
  function TermOf(p: Pipeline, word: UText): (r: Option<Bytes>)
  {
    var w := ProcessedWord(p, word);
    if w in p.stopwords then None
    else if p.stemmer.Some? && p.env.stem(p.stemmer.value, w).Some? then p.env.stem(p.stemmer.value, w)
    else Some(w)
  }

  /** The pipeline's outcomes: dropped exactly for a stopword, else the stem if any, else the word. */
  lemma TermOfCases(p: Pipeline, word: UText)
    ensures TermOf(p, word).None? <==> ProcessedWord(p, word) in p.stopwords
    ensures TermOf(p, word).Some? && p.stemmer.Some? && p.env.stem(p.stemmer.value, ProcessedWord(p, word)).Some? ==>
      TermOf(p, word) == p.env.stem(p.stemmer.value, ProcessedWord(p, word))
    ensures TermOf(p, word).Some? && (p.stemmer.None? || p.env.stem(p.stemmer.value, ProcessedWord(p, word)).None?) ==>
      TermOf(p, word) == Some(ProcessedWord(p, word))
  {
  }

  /** A failed normalization acts as if the normalizer had returned the word itself. */
  lemma NormalizationFallback(p: Pipeline, word: UText)
    requires p.env.normalize(word).None?
    ensures ProcessedWord(p, word) == ProcessedWord(p.(env := p.env.(normalize := w => Some(w))), word)
  {
  }

  /** Without case conversion and accent removal, a normalized word only changes its encoding. */
  lemma PlainPipeline(p: Pipeline, word: UText)
    requires p.caseConvert == NoConvert && !p.transliterate
    ensures ProcessedWord(p, word) == p.env.toUtf8(p.env.normalize(word).GetOr(word))
  {
  }

  // ---------------------------------------------------------------------------
  // Segments
  // ---------------------------------------------------------------------------

  /** Where segment `k` starts: the previous boundary, or 0 for the first one. */
  function StartOf(bounds: seq<Boundary>, k: nat): nat
    requires k < |bounds|
  {
    if k == 0 then 0 else bounds[k - 1].pos
  }

  /** `tempSubString(a, b - a)`, with ICU's pinning of the start and the length to the text. */
  function Sub(t: UText, a: nat, b: int): (r: UText)
    ensures a <= b <= |t| ==> r == t[a..b]
    ensures |r| <= |t|
  {
    var s := Min(a, |t|);
    var e := if b < s then s else Min(b, |t|);
    t[s..e]
  }

  /** The term segment `k` gives, or None when it is not a word or is dropped. */
  function SegmentTerm(p: Pipeline, text: UText, bounds: seq<Boundary>, k: nat): Option<Bytes>
    requires k < |bounds|
  {
    if bounds[k].isWord then TermOf(p, Sub(text, StartOf(bounds, k), bounds[k].pos)) else None
  }

  /** The first segment at or after `k` that yields a token, or |bounds| when none does. */
  function NextToken(p: Pipeline, text: UText, bounds: seq<Boundary>, k: nat): (r: nat)
    requires k <= |bounds|
    ensures k <= r <= |bounds|
    ensures forall i :: k <= i < r ==> SegmentTerm(p, text, bounds, i).None?
    ensures r < |bounds| ==> SegmentTerm(p, text, bounds, r).Some?
    decreases |bounds| - k
  {
    if k == |bounds| || SegmentTerm(p, text, bounds, k).Some? then k
    else NextToken(p, text, bounds, k + 1)
  }

  /** The search for the next token either stops at segment `k` or goes on from `k + 1`. */
  lemma NextTokenStep(p: Pipeline, text: UText, bounds: seq<Boundary>, k: nat)
    requires k < |bounds|
    ensures SegmentTerm(p, text, bounds, k).Some? ==> NextToken(p, text, bounds, k) == k
    ensures SegmentTerm(p, text, bounds, k).None? ==> NextToken(p, text, bounds, k) == NextToken(p, text, bounds, k + 1)
  {
  }

  datatype Token = Token(start: nat, end: nat, term: Bytes)

  /** The tokens of the segments from `k` on, in order. */
  function TokensFrom(p: Pipeline, text: UText, bounds: seq<Boundary>, k: nat): seq<Token>
    requires k <= |bounds|
    decreases |bounds| - k
  {
    if k == |bounds| then []
    else
      var rest := TokensFrom(p, text, bounds, k + 1);
      match SegmentTerm(p, text, bounds, k)
      case Some(t) => [Token(StartOf(bounds, k), bounds[k].pos, t)] + rest
      case None => rest
  }

  /** The token `next` reports from segment `k` on is the first of the remaining tokens. */
  lemma {:induction false} NextTokenIsFirst(p: Pipeline, text: UText, bounds: seq<Boundary>, k: nat)
    requires k <= |bounds|
    ensures var n := NextToken(p, text, bounds, k);
      && (n == |bounds| <==> TokensFrom(p, text, bounds, k) == [])
      && (n < |bounds| ==>
            TokensFrom(p, text, bounds, k)
              == [Token(StartOf(bounds, n), bounds[n].pos, SegmentTerm(p, text, bounds, n).value)]
                 + TokensFrom(p, text, bounds, n + 1))
    decreases |bounds| - k
  {
    if k < |bounds| && SegmentTerm(p, text, bounds, k).None? {
      NextTokenIsFirst(p, text, bounds, k + 1);
    }
  }

  /** Every token comes from a word segment, spans it, and carries the pipeline's term of its text. */
  lemma {:induction false} TokensAreWords(p: Pipeline, text: UText, bounds: seq<Boundary>, k: nat, t: Token)
    requires k <= |bounds|
    requires t in TokensFrom(p, text, bounds, k)
    ensures exists i :: (k <= i < |bounds| && bounds[i].isWord
      && t.start == StartOf(bounds, i) && t.end == bounds[i].pos
      && TermOf(p, Sub(text, t.start, t.end)) == Some(t.term))
    decreases |bounds| - k
  {
    var rest := TokensFrom(p, text, bounds, k + 1);
    if t in rest {
      TokensAreWords(p, text, bounds, k + 1, t);
      var i :| k + 1 <= i < |bounds| && bounds[i].isWord
        && t.start == StartOf(bounds, i) && t.end == bounds[i].pos
        && TermOf(p, Sub(text, t.start, t.end)) == Some(t.term);
    } else {
      assert bounds[k].isWord;
    }
  }

  // ---------------------------------------------------------------------------
  // The analyzer
  // ---------------------------------------------------------------------------

  class TextStream {
    const env: TextEnv
    const options: Options
    const stopwords: set<Bytes>
    /** The ICU locale; None while it is bogus. */
    var icuLocale: Option<Bytes>
    var normalizer: Option<Handle>
    var transliterator: Option<Handle>
    var breakIterator: Option<Handle>
    var stemmer: Option<Handle>
    /** The text the break iterator runs over, and its boundaries. */
    var text: UText
    var bounds: seq<Boundary>
    /** How many boundaries the break iterator has reported. */
    var cursor: nat
    var tmpBuf: Bytes
    const term: BytesTerm
    var offsetStart: nat
    var offsetEnd: nat

    /** Resources are created in order, each only after those before it. */
    ghost predicate Valid()
      reads this`cursor, this`bounds, this`icuLocale, this`normalizer, this`transliterator,
        this`breakIterator, this`stemmer
    {
      && cursor <= |bounds|
      && (normalizer.Some? ==> icuLocale.Some?)
      && (transliterator.Some? ==> normalizer.Some?)
      && (breakIterator.Some? ==> normalizer.Some? && (options.noAccent ==> transliterator.Some?))
      && (stemmer.Some? ==> breakIterator.Some?)
    }

    /** The term pipeline of the current state. */
    function Pipe(): Pipeline
      reads this`icuLocale, this`transliterator, this`stemmer
      requires icuLocale.Some?
    {
      Pipeline(env, icuLocale.value, options.caseConvert, transliterator.Some?, stemmer, stopwords)
    }

    constructor (e: TextEnv, o: Options, words: set<Bytes>)
      ensures Valid() && env == e && options == o && stopwords == words
      ensures icuLocale.None? && normalizer.None? && transliterator.None? && breakIterator.None? && stemmer.None?
      ensures text == [] && bounds == [] && cursor == 0
      ensures fresh(term)
    {
      env, options, stopwords := e, o, words;
      icuLocale, normalizer, transliterator, breakIterator, stemmer := None, None, None, None, None;
      text, bounds, cursor := [], [], 0;
      tmpBuf := [];
      term := new BytesTerm();
      offsetStart, offsetEnd := 0, 0;
    }

    /**
     * `process_term`: runs one word through the pipeline; on a stopword it
     * reports false and leaves the term alone.
     */
    method ProcessTerm(word: UText) returns (ok: bool)
      requires icuLocale.Some?
      modifies this`tmpBuf, term
      ensures tmpBuf == ProcessedWord(Pipe(), word)
      ensures ok == TermOf(Pipe(), word).Some?
      ensures ok ==> term.value == TermOf(Pipe(), word)
      ensures !ok ==> term.value == old(term.value) && term.buf == old(term.buf)
    {
      var normalized := env.normalize(word);
      var w := if normalized.Some? then normalized.value else word;
      match options.caseConvert {
        case Lower => w := env.toLower(icuLocale.value, w);
        case Upper => w := env.toUpper(icuLocale.value, w);
        case NoConvert =>
      }
      if transliterator.Some? {
        w := env.removeAccents(w);
      }
      tmpBuf := [];
      tmpBuf := tmpBuf + env.toUtf8(w);
      assert tmpBuf == ProcessedWord(Pipe(), word);
      if tmpBuf in stopwords {
        return false;
      }
      if stemmer.Some? {
        var stemmed := env.stem(stemmer.value, tmpBuf);
        if stemmed.Some? {
          term.ValueRef(stemmed.value);
          return true;
        }
      }
      term.ValueOwned(tmpBuf);
      return true;
    }

    /**
     * One round of `next`'s loop: moves past the current segment and, when
     * it is a word that yields a term, sets that term and the segment's
     * offsets.
     */
    method Step() returns (found: bool)
      requires Valid() && cursor < |bounds| && icuLocale.Some?
      modifies this`cursor, this`tmpBuf, this`offsetStart, this`offsetEnd, term
      ensures Valid() && Pipe() == old(Pipe()) && cursor == old(cursor) + 1
      ensures found == SegmentTerm(Pipe(), text, bounds, old(cursor)).Some?
      ensures found ==> (offsetStart == StartOf(bounds, old(cursor)) && offsetEnd == bounds[old(cursor)].pos
                         && term.value == SegmentTerm(Pipe(), text, bounds, old(cursor)))
      ensures !found ==> offsetStart == old(offsetStart) && offsetEnd == old(offsetEnd) && term.value == old(term.value)
    {
      var start := StartOf(bounds, cursor);
      var end := bounds[cursor];
      cursor := cursor + 1;
      if !end.isWord {
        return false;
      }
      found := ProcessTerm(Sub(text, start, end.pos));
      if found {
        offsetStart, offsetEnd := start, end.pos;
      }
    }

    /**
     * `next`: walks the boundaries, skipping non-word segments and dropped
     * words, and reports the first token with the segment's offsets.
     */
    method Next() returns (r: bool)
      requires Valid() && breakIterator.Some?
      modifies this`cursor, this`tmpBuf, this`offsetStart, this`offsetEnd, term
      ensures Valid()
      ensures var n := NextToken(Pipe(), text, bounds, old(cursor));
        && r == (n < |bounds|)
        && (r ==> cursor == n + 1 && offsetStart == StartOf(bounds, n) && offsetEnd == bounds[n].pos
                  && term.value == SegmentTerm(Pipe(), text, bounds, n))
        && (!r ==> cursor == |bounds| && offsetStart == old(offsetStart) && offsetEnd == old(offsetEnd)
                   && term.value == old(term.value))
    {
      ghost var p := Pipe();
      ghost var target := NextToken(p, text, bounds, cursor);
      ghost var start0, end0, value0 := offsetStart, offsetEnd, term.value;
      while cursor < |bounds|
        invariant Valid() && icuLocale.Some? && Pipe() == p
        invariant cursor <= target <= |bounds|
        invariant NextToken(p, text, bounds, cursor) == target
        invariant offsetStart == start0 && offsetEnd == end0 && term.value == value0
        decreases |bounds| - cursor
      {
        NextTokenStep(p, text, bounds, cursor);
        var found := Step();
        if found {
          return true;
        }
      }
      return false;
    }

    /**
     * `reset`: creates, in order and each only while it is missing, the ICU
     * locale, the NFC normalizer, the accent remover (only with `noAccent`)
     * and the word break iterator, failing at the first that cannot be made;
     * then the stemmer, whose absence is no error; then converts the input
     * and hands it to the break iterator. A failed conversion, or a text of
     * more than INT32_MAX bytes, fails and leaves the previous text in place.
     */
    method Reset(data: Bytes) returns (r: bool)
      requires Valid()
      modifies this`icuLocale, this`normalizer, this`transliterator, this`breakIterator, this`stemmer,
        this`text, this`bounds, this`cursor
      ensures Valid()
      ensures icuLocale == (if old(icuLocale).Some? then old(icuLocale) else env.icuLocale(options.locale))
      ensures normalizer == (if old(normalizer).Some? || icuLocale.None? then old(normalizer) else env.nfc)
      ensures transliterator ==
        (if old(transliterator).Some? || normalizer.None? || !options.noAccent then old(transliterator)
         else env.accentRemover)
      ensures breakIterator ==
        (if old(breakIterator).Some? || normalizer.None? || (options.noAccent && transliterator.None?)
         then old(breakIterator) else env.breakIteratorFor(icuLocale.value))
      ensures stemmer ==
        (if old(stemmer).Some? || breakIterator.None? || options.noStem then old(stemmer)
         else env.stemmerFor(options.locale))
      ensures var converted := env.toInternal(options.locale, data);
        r == (breakIterator.Some? && converted.Some? && |converted.value| <= INT32_MAX)
      ensures r ==> (text == env.fromUtf8(env.toInternal(options.locale, data).value)
        && bounds == env.segment(icuLocale.value, text) && cursor == 0)
      ensures !r ==> (text == old(text) && bounds == old(bounds) && cursor == old(cursor))
    {
      r := PrepareResources();
      if !r {
        return false;
      }
      if !options.noStem && stemmer.None? {
        stemmer := env.stemmerFor(options.locale);
      }
      var converted := env.toInternal(options.locale, data);
      if converted.None? {
        return false;
      }
      if |converted.value| > INT32_MAX {
        return false;
      }
      text := env.fromUtf8(converted.value);
      bounds := env.segment(icuLocale.value, text);
      cursor := 0;
      return true;
    }

    /** The part of `reset` that creates the ICU objects still missing, stopping at the first failure. */
    method PrepareResources() returns (ready: bool)
      requires Valid()
      modifies this`icuLocale, this`normalizer, this`transliterator, this`breakIterator
      ensures Valid() && ready == breakIterator.Some?
      ensures icuLocale == (if old(icuLocale).Some? then old(icuLocale) else env.icuLocale(options.locale))
      ensures normalizer == (if old(normalizer).Some? || icuLocale.None? then old(normalizer) else env.nfc)
      ensures transliterator ==
        (if old(transliterator).Some? || normalizer.None? || !options.noAccent then old(transliterator)
         else env.accentRemover)
      ensures breakIterator ==
        (if old(breakIterator).Some? || normalizer.None? || (options.noAccent && transliterator.None?)
         then old(breakIterator) else env.breakIteratorFor(icuLocale.value))
    {
      if icuLocale.None? {
        icuLocale := env.icuLocale(options.locale);
        if icuLocale.None? {
          return false;
        }
      }
      if normalizer.None? {
        normalizer := env.nfc;
        if normalizer.None? {
          return false;
        }
      }
      if options.noAccent && transliterator.None? {
        transliterator := env.accentRemover;
        if transliterator.None? {
          return false;
        }
      }
      if breakIterator.None? {
        breakIterator := env.breakIteratorFor(icuLocale.value);
        if breakIterator.None? {
          return false;
        }
      }
      return true;
    }
  }

  /** Draining a stream after a successful `reset` reports its tokens in order. */
  method Drain(s: TextStream) returns (tokens: seq<Token>)
    requires s.Valid() && s.breakIterator.Some? && s.cursor == 0
    modifies s`cursor, s`tmpBuf, s`offsetStart, s`offsetEnd, s.term
    ensures tokens == TokensFrom(s.Pipe(), s.text, s.bounds, 0)
  {
    tokens := [];
    while true
      invariant s.Valid() && s.breakIterator.Some?
      invariant tokens + TokensFrom(s.Pipe(), s.text, s.bounds, s.cursor) == TokensFrom(s.Pipe(), s.text, s.bounds, 0)
      decreases |s.bounds| - s.cursor
    {
      ghost var before := s.cursor;
      NextTokenIsFirst(s.Pipe(), s.text, s.bounds, before);
      var more := s.Next();
      if !more {
        assert tokens == TokensFrom(s.Pipe(), s.text, s.bounds, 0);
        return;
      }
      tokens := tokens + [Token(s.offsetStart, s.offsetEnd, s.term.value.value)];
    }
  }
}

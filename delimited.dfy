/**
 * The delimiter analyzer: splits its input at every occurrence of a
 * delimiter that is not inside a double-quoted section, and decodes a token
 * written as a quoted literal (outer quotes dropped, each `""` read as `"`).
 */
module DelimitedTokenStream {
  import opened Wrappers
  import opened Bytes
  import opened Json

  // ---------------------------------------------------------------------------
  // Quote-aware delimiter search
  // ---------------------------------------------------------------------------

  /** The number of quote bytes in `s`. */
  function QuoteCount(s: Bytes): nat
  {
    if s == [] then 0
    else QuoteCount(s[..|s| - 1]) + (if s[|s| - 1] == QUOTE then 1 else 0)
  }

  /** Position `i` lies inside a quoted section: an odd number of quotes precede it. */
  predicate InQuotes(d: Bytes, i: nat)
    requires i <= |d|
  {
    QuoteCount(d[..i]) % 2 == 1
  }

  /** The delimiter occurs in `d` starting at `i`. */
  predicate MatchesAt(d: Bytes, delim: Bytes, i: nat)
  {
    i + |delim| <= |d| && d[i..i + |delim|] == delim
  }

  /**
   * `i` is a position at which the search reports a delimiter: it is outside
   * quotes, the delimiter occurs there, and an empty delimiter is never taken
   * at position 0.
   */
  predicate IsDelimiterAt(d: Bytes, delim: Bytes, i: nat)
  {
    i < |d| && !InQuotes(d, i) && MatchesAt(d, delim, i) && (i > 0 || |delim| > 0)
  }

  /** The first reportable position at or after `k`, or `|d|` when there is none. */
  function FirstDelimiterFrom(d: Bytes, delim: Bytes, k: nat): (r: nat)
    requires k <= |d|
    ensures k <= r <= |d|
    ensures r < |d| ==> IsDelimiterAt(d, delim, r)
    ensures forall j :: k <= j < r ==> !IsDelimiterAt(d, delim, j)
    decreases |d| - k
  {
    if k == |d| then |d|
    else if IsDelimiterAt(d, delim, k) then k
    else FirstDelimiterFrom(d, delim, k + 1)
  }

  /** The length of a delimiter; a null delimiter has length 0. */
  function DelimLength(delim: Option<Bytes>): nat
  {
    if delim.None? then 0 else |delim.value|
  }

  /**
   * Where the next token of `d` ends: the first unquoted delimiter, or the
   * whole input when there is none or the delimiter is null.
   */
  function DelimiterPosition(d: Bytes, delim: Option<Bytes>): (r: nat)
    ensures r <= |d|
    ensures delim.None? ==> r == |d|
    ensures r < |d| ==> delim.Some? && IsDelimiterAt(d, delim.value, r)
    ensures delim.Some? ==> forall j :: 0 <= j < r ==> !IsDelimiterAt(d, delim.value, j)
  {
    if delim.None? then |d| else FirstDelimiterFrom(d, delim.value, 0)
  }

  lemma QuoteCountStep(d: Bytes, i: nat)
    requires i < |d|
    ensures QuoteCount(d[..i + 1]) == QuoteCount(d[..i]) + (if d[i] == QUOTE then 1 else 0)
  {
    assert d[..i + 1][..i] == d[..i];
  }

  lemma {:induction false} NoRoomNoDelimiter(d: Bytes, delim: Bytes, k: nat)
    requires k <= |d| && |d| - k < |delim|
    ensures FirstDelimiterFrom(d, delim, k) == |d|
    decreases |d| - k
  {
    if k < |d| {
      NoRoomNoDelimiter(d, delim, k + 1);
    }
  }

  lemma FirstDelimiterSkip(d: Bytes, delim: Bytes, i: nat)
    requires i < |d| && !IsDelimiterAt(d, delim, i)
    ensures FirstDelimiterFrom(d, delim, i) == FirstDelimiterFrom(d, delim, i + 1)
  {
  }

  /** The search of `find_delimiter`: one pass with a `quoted` flag. */
  method FindDelimiter(d: Bytes, delim: Option<Bytes>) returns (r: nat)
    ensures r == DelimiterPosition(d, delim)
  {
    if delim.None? {
      return |d|;
    }
    var dl := delim.value;
    var quoted := false;
    var i := 0;
    while i < |d|
      invariant 0 <= i <= |d|
      invariant quoted == InQuotes(d, i)
      invariant FirstDelimiterFrom(d, dl, 0) == FirstDelimiterFrom(d, dl, i)
    {
      QuoteCountStep(d, i);
      if quoted {
        FirstDelimiterSkip(d, dl, i);
        if d[i] == QUOTE {
          quoted := false;
        }
        i := i + 1;
        continue;
      }
      if |d| - i < |dl| {
        NoRoomNoDelimiter(d, dl, i);
        break;
      }
      if d[i..i + |dl|] == dl && (i > 0 || |dl| > 0) {
        assert IsDelimiterAt(d, dl, i);
        return i;
      }
      FirstDelimiterSkip(d, dl, i);
      if d[i] == QUOTE {
        quoted := true;
      }
      i := i + 1;
    }
    return |d|;
  }

  // ---------------------------------------------------------------------------
  // Quoted literals
  // ---------------------------------------------------------------------------

  /** Doubles every quote of `s`. */
  function Escape(s: Bytes): Bytes
  {
    if s == [] then []
    else (if s[0] == QUOTE then [QUOTE, QUOTE] else [s[0]]) + Escape(s[1..])
  }

  /** The quoted literal that stands for `s`. */
  function Quote(s: Bytes): Bytes
  {
    [QUOTE] + Escape(s) + [QUOTE]
  }

  /** `b` is the body of a well-formed quoted literal: its quotes come in adjacent pairs. */
  predicate WellEscaped(b: Bytes)
    decreases |b|
  {
    if b == [] then true
    else if b[0] != QUOTE then WellEscaped(b[1..])
    else |b| >= 2 && b[1] == QUOTE && WellEscaped(b[2..])
  }

  /** Reads each `""` of a well-formed body as one quote. */
  function Unescape(b: Bytes): Bytes
    requires WellEscaped(b)
    decreases |b|
  {
    if b == [] then []
    else if b[0] != QUOTE then [b[0]] + Unescape(b[1..])
    else [QUOTE] + Unescape(b[2..])
  }

  /** `d` is a complete quoted literal. */
  predicate IsQuotedLiteral(d: Bytes)
  {
    |d| >= 2 && d[0] == QUOTE && d[|d| - 1] == QUOTE && WellEscaped(d[1..|d| - 1])
  }

  /** The decoded term: the literal's content for a quoted literal, the input itself otherwise. */
  function DecodedTerm(d: Bytes): (r: Bytes)
    ensures (d == [] || d[0] != QUOTE) ==> r == d
  {
    if IsQuotedLiteral(d) then Unescape(d[1..|d| - 1]) else d
  }

  lemma {:induction false} WellEscapedAppend(x: Bytes, y: Bytes)
    requires WellEscaped(x)
    ensures WellEscaped(x + y) <==> WellEscaped(y)
    ensures WellEscaped(y) ==> Unescape(x + y) == Unescape(x) + Unescape(y)
    decreases |x|
  {
    if x == [] {
      assert x + y == y;
    } else if x[0] != QUOTE {
      assert (x + y)[1..] == x[1..] + y;
      WellEscapedAppend(x[1..], y);
    } else {
      assert (x + y)[2..] == x[2..] + y;
      WellEscapedAppend(x[2..], y);
    }
  }

  lemma {:induction false} QuoteFreeIsWellEscaped(c: Bytes)
    requires forall k :: 0 <= k < |c| ==> c[k] != QUOTE
    ensures WellEscaped(c) && Unescape(c) == c
    decreases |c|
  {
    if c != [] {
      QuoteFreeIsWellEscaped(c[1..]);
    }
  }

  lemma {:induction false} EscapeIsWellEscaped(s: Bytes)
    ensures WellEscaped(Escape(s)) && Unescape(Escape(s)) == s
    decreases |s|
  {
    if s != [] {
      EscapeIsWellEscaped(s[1..]);
      var head := if s[0] == QUOTE then [QUOTE, QUOTE] else [s[0]];
      assert Escape(s) == head + Escape(s[1..]);
      if s[0] == QUOTE {
        assert Escape(s)[2..] == Escape(s[1..]);
      } else {
        assert Escape(s)[1..] == Escape(s[1..]);
      }
      assert s == [s[0]] + s[1..];
    }
  }

  lemma {:induction false} EscapeUnescape(b: Bytes)
    requires WellEscaped(b)
    ensures Escape(Unescape(b)) == b
    decreases |b|
  {
    if b != [] {
      if b[0] != QUOTE {
        EscapeUnescape(b[1..]);
        assert Unescape(b)[1..] == Unescape(b[1..]);
        assert b == [b[0]] + b[1..];
      } else {
        EscapeUnescape(b[2..]);
        assert Unescape(b)[1..] == Unescape(b[2..]);
        assert b == [QUOTE, QUOTE] + b[2..];
      }
    }
  }

  /** Decoding a quoted literal gives back the bytes it was written from. */
  lemma DecodeQuote(s: Bytes)
    ensures IsQuotedLiteral(Quote(s))
    ensures DecodedTerm(Quote(s)) == s
  {
    EscapeIsWellEscaped(s);
    var q := Quote(s);
    assert q[1..|q| - 1] == Escape(s);
  }

  /** A term either decodes to itself or is exactly the quoted literal of what it decodes to. */
  lemma DecodedTermShape(d: Bytes)
    ensures DecodedTerm(d) == d || d == Quote(DecodedTerm(d))
  {
    if IsQuotedLiteral(d) {
      var body := d[1..|d| - 1];
      EscapeUnescape(body);
      assert d == [QUOTE] + body + [QUOTE];
    }
  }

  /** The body `data[1..e]` is well formed and unescapes to `buf`. */
  ghost predicate DecodedPrefix(data: Bytes, e: nat, buf: Bytes)
    requires 1 <= e <= |data|
  {
    WellEscaped(data[1..e]) && Unescape(data[1..e]) == buf
  }

  ghost predicate QuoteFree(data: Bytes, lo: nat, hi: nat)
    requires hi <= |data|
  {
    forall k :: lo <= k < hi ==> data[k] != QUOTE
  }

  /** Appending a quote-free chunk after a pair of quotes keeps the decoded prefix. */
  lemma ExtendAfterPair(data: Bytes, s: nat, i: nat, buf: Bytes)
    requires 2 <= s < i < |data|
    requires data[s - 1] == QUOTE && data[s] == QUOTE
    requires DecodedPrefix(data, s - 1, buf) && QuoteFree(data, s + 1, i)
    ensures DecodedPrefix(data, i, buf + data[s..i])
  {
    var x := data[1..s - 1];
    var c := data[s + 1..i];
    assert forall k :: 0 <= k < |c| ==> c[k] == data[s + 1 + k];
    PairThenQuoteFree(c);
    var y := [QUOTE, QUOTE] + c;
    WellEscapedAppend(x, y);
    assert data[1..i] == x + y;
    assert data[s..i] == [QUOTE] + c;
  }

  lemma PairThenQuoteFree(c: Bytes)
    requires forall k :: 0 <= k < |c| ==> c[k] != QUOTE
    ensures WellEscaped([QUOTE, QUOTE] + c) && Unescape([QUOTE, QUOTE] + c) == [QUOTE] + c
  {
    QuoteFreeIsWellEscaped(c);
    var y := [QUOTE, QUOTE] + c;
    assert y[2..] == c;
  }

  /** A body containing the quote-then-non-quote pair at its junction is not well formed. */
  lemma BrokenPair(data: Bytes, s: nat, buf: Bytes)
    requires 2 <= s && s + 1 < |data|
    requires data[s - 1] == QUOTE && data[s] != QUOTE
    requires DecodedPrefix(data, s - 1, buf)
    ensures !IsQuotedLiteral(data)
  {
    var x := data[1..s - 1];
    var y := data[s - 1..|data| - 1];
    assert data[1..|data| - 1] == x + y;
    assert y[0] == QUOTE && y[1] != QUOTE;
    WellEscapedAppend(x, y);
  }

  /**
   * `eval_term`: decodes a quoted literal into `buf` (reused between calls)
   * and returns it, or returns the input unchanged.
   */
  method EvalTerm(buf: Bytes, data: Bytes) returns (r: Bytes, newBuf: Bytes)
    ensures r == DecodedTerm(data)
    ensures (data == [] || data[0] != QUOTE) ==> newBuf == buf
    ensures IsQuotedLiteral(data) ==> newBuf == r
  {
    if |data| == 0 || data[0] != QUOTE {
      return data, buf;
    }
    newBuf := [];
    var escaped := false;
    var start := 1;
    var i := 1;
    ghost var mismatched := false;
    while i < |data|
      invariant 1 <= start <= i <= |data|
      invariant !mismatched
      invariant !escaped && start == 1 ==> newBuf == [] && QuoteFree(data, 1, i)
      invariant !escaped && start > 1 ==>
        start < i && data[start - 1] == QUOTE && data[start] == QUOTE
        && DecodedPrefix(data, start - 1, newBuf) && QuoteFree(data, start + 1, i)
      invariant escaped ==>
        2 <= start && data[start - 1] == QUOTE
        && DecodedPrefix(data, start - 1, newBuf) && QuoteFree(data, start, i)
    {
      if data[i] == QUOTE {
        if escaped && start == i {
          escaped := false;
          i := i + 1;
          continue;
        }
        if escaped {
          BrokenPair(data, start, newBuf);
          escaped := false;
          mismatched := true;
          break;
        }
        if start == 1 {
          QuoteFreeIsWellEscaped(data[1..i]);
        } else {
          ExtendAfterPair(data, start, i, newBuf);
        }
        newBuf := newBuf + data[start..i];
        escaped := true;
        start := i + 1;
      }
      i := i + 1;
    }
    if start != 1 && start == |data| {
      r := newBuf;
    } else {
      r := data;
      if !mismatched {
        if !escaped && start > 1 && start == |data| - 1 {
          BrokenLast(data, start, newBuf);
        }
      }
    }
  }

  /** A body whose last byte is a lone quote after a decoded prefix is not well formed. */
  lemma BrokenLast(data: Bytes, s: nat, buf: Bytes)
    requires 2 <= s && s + 1 == |data|
    requires data[s - 1] == QUOTE && data[s] == QUOTE
    requires DecodedPrefix(data, s - 1, buf)
    ensures !IsQuotedLiteral(data)
  {
    var x := data[1..s - 1];
    var y := data[s - 1..|data| - 1];
    assert data[1..|data| - 1] == x + y;
    assert y == [QUOTE];
    WellEscapedAppend(x, y);
  }

  // ---------------------------------------------------------------------------
  // The token stream
  // ---------------------------------------------------------------------------

  /** The remaining input after the token that ends at `DelimiterPosition(d, delim)`. */
  function Rest(d: Bytes, delim: Option<Bytes>): (r: Option<Bytes>)
    ensures r.Some? ==> |r.value| < |d|
    ensures r.Some? ==> |d| - |r.value| == Max(1, DelimiterPosition(d, delim) + DelimLength(delim))
  {
    var size := DelimiterPosition(d, delim);
    if size >= |d| then None else Some(d[Max(1, size + DelimLength(delim))..])
  }

  /** The payloads a freshly reset stream yields for `d`, in order. */
  function Payloads(d: Bytes, delim: Option<Bytes>): (r: seq<Bytes>)
    ensures |r| > 0
    decreases |d|
  {
    var size := DelimiterPosition(d, delim);
    match Rest(d, delim)
    case None => [d[..size]]
    case Some(rest) => [d[..size]] + Payloads(rest, delim)
  }

  /** The payloads with the delimiter put back between them. */
  function Join(ps: seq<Bytes>, sep: Bytes): Bytes
    requires |ps| > 0
  {
    if |ps| == 1 then ps[0] else ps[0] + sep + Join(ps[1..], sep)
  }

  /** Splitting and re-joining with the delimiter gives back the input. */
  lemma {:induction false} JoinPayloads(d: Bytes, delim: Option<Bytes>)
    ensures Join(Payloads(d, delim), delim.GetOr([])) == d
    decreases |d|
  {
    var size := DelimiterPosition(d, delim);
    match Rest(d, delim)
    case None =>
      assert d[..size] == d;
    case Some(rest) =>
      var dl := delim.value;
      var ps := Payloads(rest, delim);
      assert Payloads(d, delim) == [d[..size]] + ps;
      JoinPayloads(rest, delim);
      JoinCons(d[..size], ps, dl);
      assert IsDelimiterAt(d, dl, size);
      assert Max(1, size + |dl|) == size + |dl|;
      assert d == d[..size] + dl + rest;
  }

  lemma JoinCons(p: Bytes, ps: seq<Bytes>, sep: Bytes)
    requires |ps| > 0
    ensures Join([p] + ps, sep) == p + sep + Join(ps, sep)
  {
    assert ([p] + ps)[1..] == ps;
  }

  /** `make_json` for this analyzer: the delimiter, or None when no analyzer is made. */
  function MakeJson(parsed: Option<Json>): (r: Option<Bytes>)
    ensures parsed.Some? && parsed.value.JString? ==> r == Some(CStr(parsed.value.s))
    ensures parsed.None? ==> r.None?
    ensures parsed.Some? && parsed.value.JObject? ==> r == CStrMember(parsed.value, "delimiter")
    ensures parsed.Some? && !parsed.value.JString? && !parsed.value.JObject? ==> r.None?
  {
    match parsed
    case None => None
    case Some(JString(s)) => Some(CStr(s))
    case Some(JObject(_)) => CStrMember(parsed.value, "delimiter")
    case Some(_) => None
  }

  /** `make_json_config`: the object with the stored delimiter copy, all its bytes kept. */
  function WriteJsonConfig(delimBuf: Bytes): (r: Json)
    ensures r.JObject? && r.members.Keys == {"delimiter"}
    ensures StringMember(r, "delimiter") == Some(delimBuf)
  {
    JObject(map["delimiter" := JString(delimBuf)])
  }

  /**
   * The written JSON configuration reads back as the delimiter up to its
   * first 0 byte, so as the same delimiter when it holds none.
   */
  lemma JsonConfigRoundTrip(delimBuf: Bytes)
    ensures MakeJson(Some(WriteJsonConfig(delimBuf))) == Some(CStr(delimBuf))
    ensures 0 !in delimBuf ==> MakeJson(Some(WriteJsonConfig(delimBuf))) == Some(delimBuf)
  {
  }

  /**
   * The stored copy of the delimiter written out by the configuration
   * writers: a null delimiter is written as the empty string, which reads
   * back as a non-null empty delimiter that splits between every byte.
   */
  function StoredDelimiter(delim: Option<Bytes>): Bytes
  {
    delim.GetOr([])
  }

  class DelimitedStream {
    /** The delimiter; None is a NIL reference. */
    const delim: Option<Bytes>
    /** The unconsumed input; None is NIL, after the last token or before any reset. */
    var data: Option<Bytes>
    var offsetStart: nat
    var offsetEnd: nat
    var payload: Bytes
    var term: Bytes
    var termBuf: Bytes

    ghost predicate Valid()
      reads this
    {
      offsetStart < UINT32_LIMIT && offsetEnd < UINT32_LIMIT
    }

    constructor (delimiter: Option<Bytes>)
      ensures Valid() && delim == delimiter && data.None?
      ensures offsetStart == 0 && offsetEnd == 0
    {
      delim := delimiter;
      data := None;
      offsetStart, offsetEnd := 0, 0;
      payload, term, termBuf := [], [], [];
    }

    /** `reset`: always succeeds; the end offset is set so that the first token starts at 0. */
    method Reset(input: Option<Bytes>) returns (r: bool)
      requires Valid()
      modifies this
      ensures Valid() && r
      ensures data == input && offsetStart == 0
      ensures offsetEnd == U32(0 - U32(DelimLength(delim)))
      ensures U32(offsetEnd + U32(DelimLength(delim))) == 0
      ensures payload == old(payload) && term == old(term) && termBuf == old(termBuf)
    {
      data := input;
      offsetStart := 0;
      offsetEnd := U32(0 - U32(DelimLength(delim)));
      return true;
    }

    /** `next`: emits the token before the next unquoted delimiter. */
    method Next() returns (r: bool)
      requires Valid()
      modifies this
      ensures Valid()
      ensures old(data).None? ==> !r
      ensures !r ==> (data == old(data) && offsetStart == old(offsetStart) && offsetEnd == old(offsetEnd)
        && payload == old(payload) && term == old(term) && termBuf == old(termBuf))
      ensures old(data).Some? ==>
        var d := old(data).value;
        var size := DelimiterPosition(d, delim);
        var start := U32(old(offsetEnd) + U32(DelimLength(delim)));
        && r == (start + size <= UINT32_MAX)
        && (r ==>
          && offsetStart == start
          && offsetEnd == start + size
          && payload == d[..size]
          && term == (if delim.None? then payload else DecodedTerm(payload))
          && data == Rest(d, delim)
          && (data.None? ==> Payloads(d, delim) == [payload])
          && (data.Some? ==> Payloads(d, delim) == [payload] + Payloads(data.value, delim)))
    {
      if data.None? {
        return false;
      }
      var d := data.value;
      var size := FindDelimiter(d, delim);
      var next := Max(1, size + DelimLength(delim));
      var start := U32(offsetEnd + U32(DelimLength(delim)));
      var end := start + size;
      if UINT32_MAX < end {
        return false;
      }
      offsetStart := start;
      offsetEnd := end;
      payload := d[..size];
      if delim.None? {
        term := payload;
      } else {
        term, termBuf := EvalTerm(termBuf, payload);
      }
      data := if size >= |d| then None else Some(d[next..]);
      return true;
    }
  }

  // ---------------------------------------------------------------------------
  // Examples
  // ---------------------------------------------------------------------------

  /** "a,b,c" split at "," gives "a", "b" and "c". */
  lemma SplitsAtComma()
    ensures Payloads(Ascii("a,b,c"), Some(Ascii(","))) == [Ascii("a"), Ascii("b"), Ascii("c")]
  {
    var d, c := Ascii("a,b,c"), Ascii(",");
    assert d[..1] == [d[0]];
    assert !IsDelimiterAt(d, c, 0);
    assert d[..1] == Ascii("a") && QuoteCount(d[..1]) == 0;
    assert IsDelimiterAt(d, c, 1);
    assert DelimiterPosition(d, Some(c)) == 1;
    var d1 := d[2..];
    assert d1 == Ascii("b,c");
    assert d1[..1] == Ascii("b") && QuoteCount(d1[..1]) == 0;
    assert !IsDelimiterAt(d1, c, 0) && IsDelimiterAt(d1, c, 1);
    assert DelimiterPosition(d1, Some(c)) == 1;
    var d2 := d1[2..];
    assert d2 == Ascii("c");
    assert !IsDelimiterAt(d2, c, 0);
    assert DelimiterPosition(d2, Some(c)) == 1;
    assert Rest(d2, Some(c)) == None && d2[..1] == d2;
    assert Payloads(d2, Some(c)) == [Ascii("c")];
    assert Rest(d1, Some(c)) == Some(d2);
    assert Payloads(d1, Some(c)) == [Ascii("b"), Ascii("c")];
    assert Rest(d, Some(c)) == Some(d1);
  }
}

/**
 * The n-gram analyzer: emits every contiguous byte slice of the input whose
 * length lies between a minimum and a maximum, start position by start
 * position and longest first, then optionally the whole input once more.
 */
module NgramTokenStream {
  import opened Wrappers
  import opened Bytes
  import opened Json

  datatype Options = Options(minGram: nat, maxGram: nat, preserveOriginal: bool)

  /** The options as the constructor adjusts them: min at least 1, max at least min. */
  function Clamp(o: Options): (r: Options)
    ensures 1 <= r.minGram <= r.maxGram
    ensures r.minGram == Max(o.minGram, 1) && r.maxGram == Max(o.maxGram, r.minGram)
    ensures r.preserveOriginal == o.preserveOriginal
    ensures 1 <= o.minGram <= o.maxGram ==> r == o
  {
    var lo := Max(o.minGram, 1);
    Options(lo, Max(o.maxGram, lo), o.preserveOriginal)
  }

  /** What one successful `next` reports: an n-gram `data[start..start + len]`, or the whole input. */
  datatype Emission = Gram(start: nat, len: nat) | Original

  /** The n-grams starting at `b`, of lengths `len`, `len - 1`, ..., down to `minGram`. */
  function GramsAt(b: nat, len: nat, minGram: nat): (r: seq<Emission>)
    requires minGram >= 1
    decreases len
  {
    if len < minGram then [] else [Gram(b, len)] + GramsAt(b, len - 1, minGram)
  }

  /** The k-th n-gram at a start position has length `len - k`. */
  lemma {:induction false} GramsAtIndex(b: nat, len: nat, minGram: nat)
    requires minGram >= 1
    ensures |GramsAt(b, len, minGram)| == if len < minGram then 0 else len - minGram + 1
    ensures forall k :: 0 <= k < |GramsAt(b, len, minGram)| ==> GramsAt(b, len, minGram)[k] == Gram(b, len - k)
    decreases len
  {
    if len >= minGram {
      GramsAtIndex(b, len - 1, minGram);
    }
  }

  /** The n-grams of an input of length `n` whose start is `b` or later, in emission order. */
  function GramsFrom(n: nat, b: nat, o: Options): seq<Emission>
    requires 1 <= o.minGram <= o.maxGram
    decreases n - b
  {
    if b + o.minGram > n then []
    else GramsAt(b, Min(o.maxGram, n - b), o.minGram) + GramsFrom(n, b + 1, o)
  }

  /** All n-grams of an input of length `n`. */
  function AllGrams(n: nat, o: Options): seq<Emission>
    requires 1 <= o.minGram <= o.maxGram
  {
    GramsFrom(n, 0, o)
  }

  /** Every emitted n-gram is a slice of the input with a length between min and max. */
  lemma {:induction false} GramsFromBounded(n: nat, b: nat, o: Options)
    requires 1 <= o.minGram <= o.maxGram
    ensures forall e :: e in GramsFrom(n, b, o) ==>
      e.Gram? && b <= e.start && e.start + e.len <= n && o.minGram <= e.len <= o.maxGram
    decreases n - b
  {
    if b + o.minGram <= n {
      GramsFromBounded(n, b + 1, o);
      var here := GramsAt(b, Min(o.maxGram, n - b), o.minGram);
      GramsAtIndex(b, Min(o.maxGram, n - b), o.minGram);
      forall e | e in here
        ensures e.Gram? && b <= e.start && e.start + e.len <= n && o.minGram <= e.len <= o.maxGram
      {
        var k :| 0 <= k < |here| && here[k] == e;
      }
    }
  }

  /** Every slice with a length between min and max is emitted. */
  lemma {:induction false} GramsFromComplete(n: nat, b: nat, o: Options, s: nat, len: nat)
    requires 1 <= o.minGram <= o.maxGram
    requires b <= s && o.minGram <= len <= o.maxGram && s + len <= n
    ensures Gram(s, len) in GramsFrom(n, b, o)
    decreases s - b
  {
    var here := GramsAt(b, Min(o.maxGram, n - b), o.minGram);
    GramsAtIndex(b, Min(o.maxGram, n - b), o.minGram);
    if s == b {
      var k := Min(o.maxGram, n - b) - len;
      assert here[k] == Gram(s, len);
    } else {
      GramsFromComplete(n, b + 1, o, s, len);
    }
  }

  /** The n-grams of an input are exactly its slices with a length between min and max. */
  lemma AllGramsExactly(n: nat, o: Options, e: Emission)
    requires 1 <= o.minGram <= o.maxGram
    ensures e in AllGrams(n, o) <==>
      e.Gram? && e.start + e.len <= n && o.minGram <= e.len <= o.maxGram
  {
    GramsFromBounded(n, 0, o);
    if e.Gram? && e.start + e.len <= n && o.minGram <= e.len <= o.maxGram {
      GramsFromComplete(n, 0, o, e.start, e.len);
    }
  }

  /** "abc" with min 1 and max 2: longest first at each start position. */
  lemma ThreeBytesOneToTwo()
    ensures AllGrams(3, Options(1, 2, false))
      == [Gram(0, 2), Gram(0, 1), Gram(1, 2), Gram(1, 1), Gram(2, 1)]
  {
    var o := Options(1, 2, false);
    assert GramsFrom(3, 3, o) == [];
    assert GramsFrom(3, 2, o) == [Gram(2, 1)];
    assert GramsFrom(3, 1, o) == [Gram(1, 2), Gram(1, 1), Gram(2, 1)];
  }

  /**
   * What a stream still emits when its cursor is at `begin` with `length`
   * left there: the remaining lengths at `begin`, the n-grams of later start
   * positions, then the original if it is due.
   */
  function PendingOf(n: nat, begin: int, length: nat, emitOriginal: bool, o: Options): seq<Emission>
    requires 1 <= o.minGram <= o.maxGram && begin >= -1
    requires length >= o.minGram ==> begin >= 0
  {
    (if length >= o.minGram then GramsAt(begin, length, o.minGram) else [])
      + GramsFrom(n, begin + 1, o)
      + (if emitOriginal then [Original] else [])
  }

  /** The cursor invariant of a stream over an input of length `n`. */
  ghost predicate CursorValid(n: nat, o: Options, begin: int, length: nat, offsetStart: nat)
  {
    && 1 <= o.minGram <= o.maxGram
    && n <= UINT32_MAX
    && begin >= -1
    && offsetStart < UINT32_LIMIT
    && (length >= o.minGram ==> 0 <= begin && begin + length <= n && length <= o.maxGram)
    && (begin == -1 ==> offsetStart == UINT32_MAX)
    && (0 <= begin && begin + o.minGram <= n ==> offsetStart == begin)
  }

  /** Moving to the next start position, which still has n-grams: its longest one comes first. */
  lemma NewStartPosition(n: nat, o: Options, begin: int, length: nat, offsetStart: nat, emitOriginal: bool)
    requires CursorValid(n, o, begin, length, offsetStart)
    requires length < o.minGram && begin + 1 + o.minGram <= n
    ensures var b := begin + 1;
      var len := Min(o.maxGram, n - b);
      && U32(offsetStart + 1) == b && b + len <= n && o.minGram <= len
      && CursorValid(n, o, b, len, U32(offsetStart + 1))
      && PendingOf(n, begin, length, emitOriginal, o) == PendingOf(n, b, len, emitOriginal, o)
  {
    var b := begin + 1;
    var len := Min(o.maxGram, n - b);
    var rest := GramsFrom(n, b + 1, o);
    var orig := if emitOriginal then [Original] else [];
    var here := GramsAt(b, len, o.minGram);
    assert GramsFrom(n, b, o) == here + rest;
    assert PendingOf(n, begin, length, emitOriginal, o) == here + rest + orig;
    assert PendingOf(n, b, len, emitOriginal, o) == here + rest + orig;
  }

  /** Emitting the next, shorter length at the current start position. */
  lemma SameStartPosition(n: nat, o: Options, begin: int, length: nat, offsetStart: nat, emitOriginal: bool)
    requires CursorValid(n, o, begin, length, offsetStart)
    requires o.minGram <= length
    ensures && offsetStart == begin && begin + length <= n
      && CursorValid(n, o, begin, length - 1, offsetStart)
      && PendingOf(n, begin, length, emitOriginal, o)
           == [Gram(begin, length)] + PendingOf(n, begin, length - 1, emitOriginal, o)
  {
    var rest := GramsFrom(n, begin + 1, o);
    var orig := if emitOriginal then [Original] else [];
    var tail := GramsAt(begin, length - 1, o.minGram);
    assert GramsAt(begin, length, o.minGram) == [Gram(begin, length)] + tail;
    if length - 1 < o.minGram {
      assert tail == [];
    }
    assert PendingOf(n, begin, length - 1, emitOriginal, o) == tail + rest + orig;
  }

  /** Past the last start position only the original, if due, remains. */
  lemma NoMoreGrams(n: nat, o: Options, begin: int, length: nat, offsetStart: nat, emitOriginal: bool)
    requires CursorValid(n, o, begin, length, offsetStart)
    requires length < o.minGram && n < begin + 1 + o.minGram
    ensures PendingOf(n, begin, length, emitOriginal, o) == (if emitOriginal then [Original] else [])
    ensures PendingOf(n, begin + 1, length, false, o) == []
    ensures CursorValid(n, o, begin + 1, length, offsetStart) && CursorValid(n, o, begin + 1, length, 0)
  {
  }

  /** The head and the tail of a sequence built by prepending. */
  lemma HeadTail(s: seq<Emission>, e: Emission, t: seq<Emission>)
    requires s == [e] + t
    ensures s != [] && s[0] == e && s[1..] == t
  {
  }

  class NgramStream {
    const options: Options
    var data: Bytes
    /** The current start position; -1 before the first `next`. */
    var begin: int
    /** The length of the next n-gram at `begin`; below min when `begin` is used up. */
    var length: nat
    var emitOriginal: bool
    var offsetStart: nat
    var offsetEnd: nat
    var term: Option<Bytes>
    var inc: nat

    ghost predicate Valid()
      reads this
    {
      CursorValid(|data|, options, begin, length, offsetStart) && offsetEnd < UINT32_LIMIT
    }

    /** Everything still to come: the n-grams, then the original if it is due. */
    ghost function Pending(): seq<Emission>
      reads this
      requires Valid()
    {
      PendingOf(|data|, begin, length, emitOriginal, options)
    }

    /** The attributes of the stream show emission `e`. */
    ghost predicate Shows(e: Emission)
      reads this
    {
      match e
      case Gram(s, len) =>
        s + len <= |data| && term == Some(data[s..s + len])
        && offsetStart == s && offsetEnd == s + len
      case Original =>
        term == Some(data) && offsetStart == 0 && offsetEnd == |data| && inc == 0
    }

    constructor (o: Options)
      ensures Valid() && options == Clamp(o)
      ensures data == [] && Pending() == []
    {
      options := Clamp(o);
      data := [];
      begin := -1;
      length := 0;
      emitOriginal := false;
      offsetStart, offsetEnd := UINT32_MAX, UINT32_MAX;
      term := None;
      inc := 1;
    }

    /** `reset`: refuses inputs longer than the uint32 maximum. */
    method Reset(input: Bytes) returns (r: bool)
      requires Valid()
      modifies this
      ensures Valid()
      ensures r == (|input| <= UINT32_MAX)
      ensures !r ==> (data == old(data) && begin == old(begin) && length == old(length)
        && emitOriginal == old(emitOriginal) && term == old(term)
        && offsetStart == old(offsetStart) && offsetEnd == old(offsetEnd))
      ensures r ==> (data == input && begin == -1 && length == 0 && term == None
        && offsetStart == UINT32_MAX && offsetEnd == UINT32_MAX
        && emitOriginal == (|input| > options.maxGram && options.preserveOriginal)
        && Pending() == AllGrams(|input|, options) + (if emitOriginal then [Original] else []))
      ensures inc == old(inc)
    {
      if |input| > UINT32_MAX {
        return false;
      }
      term := None;
      offsetStart, offsetEnd := UINT32_MAX, UINT32_MAX;
      data := input;
      begin := -1;
      length := 0;
      emitOriginal := |input| > options.maxGram && options.preserveOriginal;
      return true;
    }

    /** `next`: emits the first pending n-gram, or the original, or reports exhaustion. */
    method Next() returns (r: bool)
      requires Valid()
      modifies this
      ensures Valid() && data == old(data)
      ensures r == (old(Pending()) != [])
      ensures r ==> Shows(old(Pending())[0])
      ensures r ==> Pending() == old(Pending())[1..]
      ensures !r ==> (Pending() == [] && term == old(term)
        && offsetStart == old(offsetStart) && offsetEnd == old(offsetEnd))
      ensures r && old(Pending())[0].Gram? ==> inc == old(inc)
    {
      if length < options.minGram {
        if |data| < begin + 1 + options.minGram {
          r := EmitOriginal();
          return;
        }
        NextStartPosition();
      }
      ghost var at, len := Pending(), length;
      r := EmitCurrent();
      HeadTail(at, Gram(begin, len), Pending());
    }

    /** The branch of `next` past the last start position: the original once, if due. */
    method EmitOriginal() returns (r: bool)
      requires Valid() && length < options.minGram && |data| < begin + 1 + options.minGram
      modifies this`begin, this`term, this`offsetStart, this`offsetEnd, this`inc, this`emitOriginal
      ensures Valid()
      ensures r == (old(Pending()) != [])
      ensures r ==> (old(Pending()) == [Original] && Shows(Original) && Pending() == [])
      ensures !r ==> (Pending() == [] && term == old(term)
        && offsetStart == old(offsetStart) && offsetEnd == old(offsetEnd))
    {
      NoMoreGrams(|data|, options, begin, length, offsetStart, emitOriginal);
      begin := begin + 1;
      if emitOriginal {
        term, offsetStart, offsetEnd, inc, emitOriginal := Some(data), 0, U32(|data|), 0, false;
        return true;
      }
      return false;
    }

    /** The branch of `next` that moves to the next start position, at its longest n-gram. */
    method NextStartPosition()
      requires Valid() && length < options.minGram && begin + 1 + options.minGram <= |data|
      modifies this`begin, this`length, this`offsetStart
      ensures Valid() && length >= options.minGram
      ensures Pending() == old(Pending())
    {
      NewStartPosition(|data|, options, begin, length, offsetStart, emitOriginal);
      begin := begin + 1;
      length := if |data| < begin + options.maxGram then |data| - begin else options.maxGram;
      offsetStart := U32(offsetStart + 1);
    }

    /** The tail of `next`: reports the n-gram of the current length at `begin`, then shortens the length. */
    method EmitCurrent() returns (r: bool)
      requires Valid() && length >= options.minGram
      modifies this`term, this`offsetEnd, this`length
      ensures Valid() && r
      ensures old(Pending()) == [Gram(begin, old(length))] + Pending()
      ensures Shows(Gram(begin, old(length)))
    {
      ghost var b, len := begin, length;
      SameStartPosition(|data|, options, b, len, offsetStart, emitOriginal);
      term := Some(data[begin..begin + length]);
      offsetEnd := U32(offsetStart + U32(length));
      assert offsetEnd == b + len;
      length := length - 1;
      assert Pending() == PendingOf(|data|, b, len - 1, emitOriginal, options);
      return true;
    }
  }

  // ---------------------------------------------------------------------------
  // JSON configuration
  // ---------------------------------------------------------------------------

  /** `GetUint64` of an integer: its value modulo 2^64. */
  function Uint64Member(j: Json, key: string): (r: Option<nat>)
    ensures r.Some? <==> Member(j, key).Some? && Member(j, key).value.JNumber?
    ensures r.Some? ==> r.value < UINT64_LIMIT
    ensures r.Some? && 0 <= Member(j, key).value.n < UINT64_LIMIT ==> r.value == Member(j, key).value.n
  {
    match Member(j, key)
    case Some(JNumber(n)) => Some(n % UINT64_LIMIT)
    case _ => None
  }

  function BoolMember(j: Json, key: string): (r: Option<bool>)
    ensures r.Some? <==> Member(j, key).Some? && Member(j, key).value.JBool?
    ensures r.Some? ==> Member(j, key).value == JBool(r.value)
  {
    match Member(j, key)
    case Some(JBool(b)) => Some(b)
    case _ => None
  }

  /** The options `make_json` accepts, before the constructor clamps them. */
  function ParseOptions(parsed: Option<Json>): (r: Option<Options>)
    ensures r.Some? <==>
      parsed.Some? && parsed.value.JObject?
      && Uint64Member(parsed.value, "min").Some?
      && Uint64Member(parsed.value, "max").Some?
      && BoolMember(parsed.value, "preserveOriginal").Some?
    ensures r.Some? ==> r.value == Options(
      Uint64Member(parsed.value, "min").value,
      Uint64Member(parsed.value, "max").value,
      BoolMember(parsed.value, "preserveOriginal").value)
  {
    if parsed.None? || !parsed.value.JObject? then None
    else
      var j := parsed.value;
      match (Uint64Member(j, "min"), Uint64Member(j, "max"), BoolMember(j, "preserveOriginal"))
      case (Some(lo), Some(hi), Some(keep)) => Some(Options(lo, hi, keep))
      case _ => None
  }

  /** `make_json_config`: the options as a JSON object, one member per option. */
  function WriteOptions(o: Options): (r: Json)
    ensures r.JObject? && r.members.Keys == {"min", "max", "preserveOriginal"}
    ensures Member(r, "min") == Some(JNumber(o.minGram)) && Member(r, "max") == Some(JNumber(o.maxGram))
    ensures Member(r, "preserveOriginal") == Some(JBool(o.preserveOriginal))
  {
    JObject(map["min" := JNumber(o.minGram), "max" := JNumber(o.maxGram),
                "preserveOriginal" := JBool(o.preserveOriginal)])
  }

  /** Writing the (clamped) options and reading them back gives the same analyzer options. */
  lemma OptionsRoundTrip(o: Options)
    requires o.minGram < UINT64_LIMIT && o.maxGram < UINT64_LIMIT
    ensures ParseOptions(Some(WriteOptions(o))) == Some(o)
    ensures Clamp(Clamp(o)) == Clamp(o)
  {
    var j := WriteOptions(o);
    assert Member(j, "min") == Some(JNumber(o.minGram));
    assert Member(j, "max") == Some(JNumber(o.maxGram));
    assert Member(j, "preserveOriginal") == Some(JBool(o.preserveOriginal));
  }
}

/**
 * `dynamic_bitset`: a run of `bits` bits stored in `words` machine words of
 * 64 bits, the bit with index i living at bit `i % 64` of word `i / 64`. The
 * bits of the last word past `bits` (the padding) are kept clear.
 *
 * A word is modelled by its 64 bits in order of significance, so bit b of a
 * word is element b of its sequence and the shift-and-mask operations on a
 * word become updates of one element or one slice.
 */
module Bitset {
  import opened Wrappers
  import opened Bytes

  /** The number of bits in a word, `bits_required<size_t>()`. */
  const W: nat := 64
  /** `sizeof(size_t)`: the bytes of a word. */
  const WORD_BYTES: nat := 8

  type Word = s: seq<bool> | |s| == 64 witness seq(64, _ => false)

  /** The all-clear word. */
  const ZERO: Word := seq(64, _ => false)

  function Zeros(n: nat): (r: seq<bool>)
    ensures |r| == n && true !in r
  {
    seq(n, _ => false)
  }

  // ---------------------------------------------------------------------------
  // Index arithmetic
  // ---------------------------------------------------------------------------

  /** `bit(i)`: the bit of its word that bit i occupies. */
  function BitInWord(i: nat): (r: nat)
    ensures r < W
  {
    i % W
  }

  /** `word(i)`: the word that holds bit i. */
  function WordOf(i: nat): nat
  {
    i / W
  }

  /** `bit_offset(i)`: the index of the first bit of word i. */
  function BitOffset(i: nat): nat
  {
    i * W
  }

  /** A bit index is its word's first bit plus its place within that word. */
  lemma IndexSplit(i: nat)
    ensures BitOffset(WordOf(i)) + BitInWord(i) == i
    ensures BitOffset(WordOf(i)) <= i < BitOffset(WordOf(i) + 1)
  {
  }

  /** `bit_to_words(bits)`: the words needed for `bits` bits, rounding up. */
  function BitToWords(bits: nat): (r: nat)
    ensures W * r >= bits
    ensures r > 0 ==> W * (r - 1) < bits
    ensures r == 0 <==> bits == 0
  {
    bits / W + (if bits % W == 0 then 0 else 1)
  }

  // ---------------------------------------------------------------------------
  // The bits of a run of words
  // ---------------------------------------------------------------------------

  /** All bits of `ws`, word after word. */
  ghost function Flatten(ws: seq<Word>): (r: seq<bool>)
    ensures |r| == W * |ws|
  {
    if ws == [] then [] else Flatten(ws[..|ws| - 1]) + ws[|ws| - 1]
  }

  /** Bit i of the run is bit `i % 64` of word `i / 64`. */
  lemma {:induction false} FlattenIndex(ws: seq<Word>, i: nat)
    requires i < W * |ws|
    ensures Flatten(ws)[i] == ws[i / W][i % W]
  {
    var n := |ws|;
    if i < W * (n - 1) {
      FlattenIndex(ws[..n - 1], i);
    }
  }

  /** Setting one bit of one word sets that bit of the run and no other. */
  lemma UpdateBit(ws: seq<Word>, i: nat, v: bool)
    requires i < W * |ws|
    ensures Flatten(ws[i / W := ws[i / W][i % W := v]]) == Flatten(ws)[i := v]
  {
    var ws' := ws[i / W := ws[i / W][i % W := v]];
    forall k | 0 <= k < W * |ws|
      ensures Flatten(ws')[k] == Flatten(ws)[i := v][k]
    {
      FlattenIndex(ws', k);
      FlattenIndex(ws, k);
    }
  }

  /** Clearing the top of the last word clears the tail of the run. */
  lemma ClearTop(ws: seq<Word>, r: nat)
    requires ws != [] && r <= W
    ensures var n := |ws|;
      Flatten(ws[n - 1 := ws[n - 1][..r] + Zeros(W - r)]) == Flatten(ws)[..W * (n - 1) + r] + Zeros(W - r)
  {
    var n := |ws|;
    var ws' := ws[n - 1 := ws[n - 1][..r] + Zeros(W - r)];
    assert ws'[..n - 1] == ws[..n - 1];
  }

  /** A run of clear words has no bit set. */
  lemma {:induction false} FlattenZeros(ws: seq<Word>)
    requires forall j :: 0 <= j < |ws| ==> ws[j] == ZERO
    ensures Flatten(ws) == Zeros(W * |ws|)
  {
    if ws != [] {
      FlattenZeros(ws[..|ws| - 1]);
    }
  }

  /** Runs of the same number of words are equal only when their words are. */
  lemma {:induction false} FlattenInjective(xs: seq<Word>, ys: seq<Word>)
    requires |xs| == |ys| && Flatten(xs) == Flatten(ys)
    ensures xs == ys
  {
    if xs != [] {
      var n := |xs|;
      var fx, fy := Flatten(xs[..n - 1]), Flatten(ys[..n - 1]);
      assert Flatten(xs)[..W * (n - 1)] == fx;
      assert Flatten(ys)[..W * (n - 1)] == fy;
      FlattenInjective(xs[..n - 1], ys[..n - 1]);
      assert xs[n - 1] == Flatten(xs)[W * (n - 1)..];
      assert ys[n - 1] == Flatten(ys)[W * (n - 1)..];
      assert xs == xs[..n - 1] + [xs[n - 1]];
      assert ys == ys[..n - 1] + [ys[n - 1]];
    }
  }

  /** True when the bits of `ws` from `bits` on are all clear. */
  ghost predicate PaddingClear(ws: seq<Word>, bits: nat)
    requires bits <= W * |ws|
  {
    true !in Flatten(ws)[bits..]
  }

  // ---------------------------------------------------------------------------
  // Counting set bits
  // ---------------------------------------------------------------------------

  /** The number of set bits in `s`; for a word, `math_traits<size_t>::pop`. */
  function CountTrue(s: seq<bool>): (r: nat)
    ensures r <= |s|
  {
    if s == [] then 0 else CountTrue(s[..|s| - 1]) + (if s[|s| - 1] then 1 else 0)
  }

  lemma {:induction false} CountTrueAppend(a: seq<bool>, b: seq<bool>)
    ensures CountTrue(a + b) == CountTrue(a) + CountTrue(b)
    decreases |b|
  {
    if b == [] {
      assert a + b == a;
    } else {
      assert (a + b)[..|a + b| - 1] == a + b[..|b| - 1];
      assert (a + b)[|a + b| - 1] == b[|b| - 1];
      CountTrueAppend(a, b[..|b| - 1]);
    }
  }

  /** No bit is counted exactly when none is set. */
  lemma {:induction false} CountTrueZero(s: seq<bool>)
    ensures CountTrue(s) == 0 <==> true !in s
  {
    if s != [] {
      CountTrueZero(s[..|s| - 1]);
      assert s == s[..|s| - 1] + [s[|s| - 1]];
    }
  }

  /** Every bit is counted exactly when every bit is set. */
  lemma {:induction false} CountTrueAll(s: seq<bool>)
    ensures CountTrue(s) == |s| <==> false !in s
  {
    if s != [] {
      CountTrueAll(s[..|s| - 1]);
      assert s == s[..|s| - 1] + [s[|s| - 1]];
    }
  }

  // ---------------------------------------------------------------------------
  // Bytes copied into words
  // ---------------------------------------------------------------------------

  /** The number a run of bits stands for, the least significant bit first. */
  function BitsValue(bits: seq<bool>): nat
  {
    if bits == [] then 0 else (if bits[0] then 1 else 0) + 2 * BitsValue(bits[1..])
  }

  function Pow2(k: nat): (r: nat)
    ensures r >= 1
  {
    if k == 0 then 1 else 2 * Pow2(k - 1)
  }

  /** The `k` lowest bits of `v`, least significant first; they stand for `v` when it fits. */
  function LowBits(v: nat, k: nat): (r: seq<bool>)
    ensures |r| == k
    ensures v < Pow2(k) ==> BitsValue(r) == v
  {
    if k == 0 then [] else
      var r := [v % 2 == 1] + LowBits(v / 2, k - 1);
      assert r[1..] == LowBits(v / 2, k - 1);
      r
  }

  /** The bits of one byte, least significant first. */
  function ByteBits(b: byte): (r: seq<bool>)
    ensures |r| == 8
    ensures BitsValue(r) == b as int
  {
    assert Pow2(8) == 256;
    LowBits(b as int, 8)
  }

  /**
   * The bits that the bytes `s` put into memory, byte after byte; the words
   * are taken to be little-endian, so byte k lands on bits `8*(k%8)` to
   * `8*(k%8)+7` of word `k/8`.
   */
  function BytesBits(s: Bytes): (r: seq<bool>)
    ensures |r| == 8 * |s|
  {
    if s == [] then [] else BytesBits(s[..|s| - 1]) + ByteBits(s[|s| - 1])
  }

  /** Byte `k` of the bytes is bits `8k` to `8k+7` of the run, in the order `ByteBits` gives. */
  lemma {:induction false} BytesBitsPlacement(s: Bytes, k: nat)
    requires k < |s|
    ensures BytesBits(s)[8 * k..8 * k + 8] == ByteBits(s[k])
    decreases |s|
  {
    var init := s[..|s| - 1];
    assert BytesBits(s) == BytesBits(init) + ByteBits(s[|s| - 1]);
    if k < |init| {
      BytesBitsPlacement(init, k);
      assert BytesBits(s)[8 * k..8 * k + 8] == BytesBits(init)[8 * k..8 * k + 8];
      assert init[k] == s[k];
    } else {
      assert BytesBits(s)[8 * k..8 * k + 8] == ByteBits(s[|s| - 1]);
    }
  }

  /** Writing the k-th byte of the words writes bits `8k` to `8k+7` of the run. */
  lemma ReplaceByte(ws: seq<Word>, k: nat, x: seq<bool>)
    requires k < WORD_BYTES * |ws| && |x| == 8
    ensures var p := 8 * (k % 8);
      var w := ws[k / 8][..p] + x + ws[k / 8][p + 8..];
      |w| == W && Flatten(ws[k / 8 := w]) == Flatten(ws)[..8 * k] + x + Flatten(ws)[8 * k + 8..]
  {
    var p := 8 * (k % 8);
    var w := ws[k / 8][..p] + x + ws[k / 8][p + 8..];
    var ws' := ws[k / 8 := w];
    var rhs := Flatten(ws)[..8 * k] + x + Flatten(ws)[8 * k + 8..];
    forall j | 0 <= j < W * |ws|
      ensures Flatten(ws')[j] == rhs[j]
    {
      FlattenIndex(ws', j);
      FlattenIndex(ws, j);
      if 8 * k <= j < 8 * k + 8 {
        assert j / W == k / 8 && j % W == p + (j - 8 * k);
      } else {
        assert j / W != k / 8 || j % W < p || j % W >= p + 8;
      }
    }
  }

  // ---------------------------------------------------------------------------
  // The bitset
  // ---------------------------------------------------------------------------

  class DynamicBitset {
    /** `bits_`: the number of bits held. */
    var bits: nat
    /** `words_`: the words in use; the buffer may be longer after a shrinking reset. */
    var words: nat
    /** `data_`: the word buffer. */
    var data: array<Word>

    ghost predicate Valid()
      reads this, data
    {
      && words == BitToWords(bits)
      && words <= data.Length
      && PaddingClear(data[..words], bits)
    }

    /** The bits held, in index order. */
    ghost function View(): (v: seq<bool>)
      reads this, data
      requires Valid()
      ensures |v| == bits
    {
      Flatten(data[..words])[..bits]
    }

    /** `size()`. */
    function Size(): (r: nat)
      reads this, data
      requires Valid()
      ensures r == |View()|
    {
      bits
    }

    /** `capacity()`: the bits the words in use can hold, never fewer than `size()`. */
    function Capacity(): (r: nat)
      reads this, data
      requires Valid()
      ensures r >= Size() && r - Size() < W
      ensures r % W == 0
    {
      W * words
    }

    /** The default constructor: no bits and no buffer. */
    constructor Empty()
      ensures Valid() && View() == [] && words == 0
    {
      bits, words := 0, 0;
      data := new Word[0];
    }

    /** `dynamic_bitset(bits)`: `bits` clear bits. */
    constructor (n: nat)
      ensures Valid() && bits == n && View() == Zeros(n)
      ensures fresh(data)
    {
      bits, words := 0, 0;
      data := new Word[0];
      new;
      Reset(n);
    }

    /** The move constructor: takes the bits and the buffer of `other`, which is left empty. */
    constructor Move(other: DynamicBitset)
      requires other.Valid()
      modifies other
      ensures Valid() && bits == old(other.bits) && View() == old(other.View())
      ensures data == old(other.data)
      ensures other.bits == 0 && other.words == 0 && other.Valid() && other.View() == []
    {
      bits, words, data := other.bits, other.words, other.data;
      new;
      other.bits, other.words := 0, 0;
      other.data := new Word[0];
    }

    /** Move assignment; assigning a bitset to itself changes nothing. */
    method MoveAssign(other: DynamicBitset)
      requires Valid() && other.Valid()
      modifies this, other
      ensures Valid()
      ensures other == this ==> bits == old(bits) && words == old(words) && data == old(data)
      ensures other != this ==>
        && bits == old(other.bits) && words == old(other.words) && data == old(other.data)
        && View() == old(other.View())
        && other.bits == 0 && other.words == 0 && other.Valid() && other.View() == []
    {
      if this != other {
        bits, words, data := other.bits, other.words, other.data;
        other.bits, other.words := 0, 0;
        other.data := new Word[0];
      }
    }

    /** `clear()`: zeroes the words in use. */
    method Clear()
      requires words <= data.Length
      modifies data
      ensures forall j :: 0 <= j < words ==> data[j] == ZERO
      ensures forall j :: words <= j < data.Length ==> data[j] == old(data[j])
    {
      var j := 0;
      while j < words
        invariant j <= words
        invariant forall k :: 0 <= k < j ==> data[k] == ZERO
        invariant forall k :: words <= k < data.Length ==> data[k] == old(data[k])
      {
        data[j] := ZERO;
        j := j + 1;
      }
    }

    /** Zeroed words in use make a valid bitset with every bit clear. */
    lemma ClearedIsValid()
      requires words == BitToWords(bits) && words <= data.Length
      requires forall j :: 0 <= j < words ==> data[j] == ZERO
      ensures Valid() && View() == Zeros(bits)
    {
      FlattenZeros(data[..words]);
    }

    /**
     * `reset(bits)`: `n` clear bits; a new buffer only when more words are
     * needed than are in use, the old one kept otherwise.
     */
    method Reset(n: nat)
      requires words <= data.Length
      modifies this, data
      ensures Valid() && bits == n && words == BitToWords(n) && View() == Zeros(n)
      ensures BitToWords(n) > old(words) ==> fresh(data) && data.Length == BitToWords(n)
      ensures BitToWords(n) <= old(words) ==> data == old(data)
    {
      var needed := BitToWords(n);
      if needed > words {
        data := new Word[needed](_ => ZERO);
      }
      words, bits := needed, n;
      Clear();
      ClearedIsValid();
    }

    /** `test(i)`. */
    predicate Test(i: nat)
      reads this, data
      requires Valid() && i < bits
      ensures Test(i) == View()[i]
    {
      FlattenIndexOf(i);
      data[WordOf(i)][BitInWord(i)]
    }

    lemma FlattenIndexOf(i: nat)
      requires Valid() && i < bits
      ensures WordOf(i) < words
      ensures View()[i] == data[WordOf(i)][BitInWord(i)]
    {
      FlattenIndex(data[..words], i);
    }

    /** `reset(i, v)`: bit i becomes v and no other bit changes. */
    method ResetBit(i: nat, v: bool)
      requires Valid() && i < bits
      modifies data
      ensures Valid() && View() == old(View())[i := v]
    {
      ghost var ws := data[..words];
      UpdateBit(ws, i, v);
      var w := WordOf(i);
      data[w] := data[w][BitInWord(i) := v];
      assert data[..words] == ws[i / W := ws[i / W][i % W := v]];
      assert Flatten(data[..words])[bits..] == Flatten(ws)[bits..];
    }

    /** `set(i)`. */
    method Set(i: nat)
      requires Valid() && i < bits
      modifies data
      ensures Valid() && View() == old(View())[i := true]
    {
      ResetBit(i, true);
    }

    /** `unset(i)`. */
    method Unset(i: nat)
      requires Valid() && i < bits
      modifies data
      ensures Valid() && View() == old(View())[i := false]
    {
      ResetBit(i, false);
    }

    /** The run of words in use is the bits held followed by clear padding. */
    lemma ViewAndPadding()
      requires Valid()
      ensures Flatten(data[..words]) == View() + Zeros(W * words - bits)
    {
      var f := Flatten(data[..words]);
      assert f == f[..bits] + f[bits..];
      assert f[bits..] == Zeros(W * words - bits) by {
        forall k | 0 <= k < W * words - bits
          ensures f[bits..][k] == false
        {
          assert f[bits..][k] in f[bits..];
        }
      }
    }

    /** `count()`: the number of set bits, summed word by word. */
    method Count() returns (r: nat)
      requires Valid()
      ensures r == CountTrue(View())
    {
      r := 0;
      var j := 0;
      while j < words
        invariant j <= words
        invariant r == CountTrue(Flatten(data[..j]))
      {
        assert data[..j + 1][..j] == data[..j];
        CountTrueAppend(Flatten(data[..j]), data[j]);
        r := r + CountTrue(data[j]);
        j := j + 1;
      }
      assert data[..j] == data[..words];
      ViewAndPadding();
      CountTrueAppend(View(), Zeros(W * words - bits));
      CountTrueZero(Zeros(W * words - bits));
    }

    /** `any()`: some word in use is not zero, that is, some bit is set. */
    method Any() returns (r: bool)
      requires Valid()
      ensures r <==> true in View()
    {
      var j := 0;
      while j < words
        invariant j <= words
        invariant true !in Flatten(data[..j])
      {
        assert data[..j + 1][..j] == data[..j];
        if data[j] != ZERO {
          assert true in data[j] by {
            NonZeroWord(data[j]);
          }
          assert true in Flatten(data[..j + 1]);
          assert data[..j + 1] == data[..words][..j + 1];
          PrefixHasTrue(data[..words], j + 1);
          ViewAndPadding();
          return true;
        }
        assert data[j] == ZERO;
        j := j + 1;
      }
      assert data[..j] == data[..words];
      ViewAndPadding();
      assert Flatten(data[..words]) == View() + Zeros(W * words - bits);
      return false;
    }

    /** `none()`: no bit is set. */
    method None() returns (r: bool)
      requires Valid()
      ensures r <==> true !in View()
    {
      var a := Any();
      r := !a;
    }

    /** `all()`: the set bits are as many as the bits held, that is, every bit is set. */
    method All() returns (r: bool)
      requires Valid()
      ensures r <==> false !in View()
    {
      var c := Count();
      r := c == bits;
      CountTrueAll(View());
    }

    /**
     * `sanitize()`: clears the bits of the last word in use from `bits % 64`
     * up; the bits held are unchanged.
     */
    method Sanitize()
      requires words == BitToWords(bits) && words <= data.Length
      modifies data
      ensures Valid()
      ensures Flatten(data[..words])[..bits] == old(Flatten(data[..words])[..bits])
    {
      var r := bits % W;
      ghost var ws := data[..words];
      if r != 0 {
        ClearTop(ws, r);
        data[words - 1] := data[words - 1][..r] + Zeros(W - r);
        assert data[..words] == ws[words - 1 := ws[words - 1][..r] + Zeros(W - r)];
        assert W * (words - 1) + r == bits;
      } else if words != 0 {
        assert W * words == bits;
      }
    }

    /**
     * `memset(src, size)`: copies the first `min(size, 8 * words)` bytes of
     * `src` over the words in use, then clears the padding.
     */
    method Memset(src: Bytes)
      requires Valid()
      modifies data
      ensures Valid()
      ensures var n := Min(|src|, WORD_BYTES * words);
        View() == (BytesBits(src[..n]) + old(Flatten(data[..words]))[8 * n..])[..bits]
    {
      var n := Min(|src|, WORD_BYTES * words);
      CopyBytes(src, n);
      Sanitize();
    }

    /** The `memcpy` of `memset`: the first `n` bytes of `src` over the words in use. */
    method CopyBytes(src: Bytes, n: nat)
      requires n <= |src| && n <= WORD_BYTES * words && words <= data.Length
      modifies data
      ensures Flatten(data[..words]) == BytesBits(src[..n]) + old(Flatten(data[..words]))[8 * n..]
    {
      ghost var f0 := Flatten(data[..words]);
      var k := 0;
      while k < n
        invariant k <= n
        invariant Flatten(data[..words]) == BytesBits(src[..k]) + f0[8 * k..]
      {
        ghost var f := Flatten(data[..words]);
        WriteByte(k, src[k]);
        CopyStep(src, k, f0, f, Flatten(data[..words]));
        k := k + 1;
      }
    }

    /** Byte k of the words in use becomes `b`; the `memcpy` of one byte. */
    method WriteByte(k: nat, b: byte)
      requires k < WORD_BYTES * words && words <= data.Length
      modifies data
      ensures Flatten(data[..words]) ==
        old(Flatten(data[..words]))[..8 * k] + ByteBits(b) + old(Flatten(data[..words]))[8 * k + 8..]
    {
      ghost var ws := data[..words];
      var p := 8 * (k % 8);
      ReplaceByte(ws, k, ByteBits(b));
      data[k / 8] := data[k / 8][..p] + ByteBits(b) + data[k / 8][p + 8..];
      assert data[..words] == ws[k / 8 := ws[k / 8][..p] + ByteBits(b) + ws[k / 8][p + 8..]];
    }

    /**
     * The corrected `operator==`: the same size and the same words in use,
     * which for valid bitsets means the same bits.
     */
    method Equals(other: DynamicBitset) returns (r: bool)
      requires Valid() && other.Valid()
      ensures r <==> View() == other.View()
    {
      r := bits == other.bits && data[..words] == other.data[..other.words];
      ViewAndPadding();
      other.ViewAndPadding();
      if View() == other.View() {
        FlattenInjective(data[..words], other.data[..other.words]);
      }
    }
  }

  /** A word other than zero has a set bit. */
  lemma NonZeroWord(w: Word)
    ensures w != ZERO <==> true in w
  {
    if true !in w {
      forall k | 0 <= k < W
        ensures w[k] == ZERO[k]
      {
        assert w[k] in w;
      }
    }
  }

  /** One step of the byte copy: byte k of `src` written over a run holding the first k. */
  lemma CopyStep(src: Bytes, k: nat, f0: seq<bool>, f: seq<bool>, f': seq<bool>)
    requires k < |src| && 8 * k + 8 <= |f0|
    requires f == BytesBits(src[..k]) + f0[8 * k..]
    requires f' == f[..8 * k] + ByteBits(src[k]) + f[8 * k + 8..]
    ensures f' == BytesBits(src[..k + 1]) + f0[8 * (k + 1)..]
  {
    var a, t := BytesBits(src[..k]), f0[8 * k..];
    assert f[..8 * k] == a;
    assert f[8 * k + 8..] == t[8..];
    assert BytesBits(src[..k + 1]) == a + ByteBits(src[k]) by {
      assert src[..k + 1][..k] == src[..k];
    }
    assert t[8..] == f0[8 * (k + 1)..];
  }

  /** `operator!=`: the negation of the corrected comparison. */
  method NotEquals(a: DynamicBitset, b: DynamicBitset) returns (r: bool)
    requires a.Valid() && b.Valid()
    ensures r <==> a.View() != b.View()
  {
    var e := a.Equals(b);
    r := !e;
  }

  /** A run whose first `j` words hold a set bit holds one. */
  lemma PrefixHasTrue(ws: seq<Word>, j: nat)
    requires j <= |ws| && true in Flatten(ws[..j])
    ensures true in Flatten(ws)
  {
    var k :| 0 <= k < |Flatten(ws[..j])| && Flatten(ws[..j])[k];
    FlattenIndex(ws[..j], k);
    FlattenIndex(ws, k);
    assert Flatten(ws)[k];
  }

  // ---------------------------------------------------------------------------
  // `operator==` as written
  // ---------------------------------------------------------------------------

  /** `memcmp(a, b, n)` over buffers of known length; None when it reads past either. */
  function Memcmp(a: Bytes, b: Bytes, n: nat): Option<bool>
  {
    if n > |a| || n > |b| then None else Some(a[..n] == b[..n])
  }

  /**
   * `operator==` as written: different sizes compare unequal; equal sizes
   * compare `size()` bytes of the two buffers, a bit count used as a byte
   * count. `a` and `b` are the bytes of the words in use.
   */
  function EqualsAsWritten(bitsA: nat, a: Bytes, bitsB: nat, b: Bytes): Option<bool>
  {
    if bitsA != bitsB then Some(false) else Memcmp(a, b, bitsA)
  }

  /**
   * The comparison as written reads past the words in use for every size
   * above 8 bits; up to 8 bits it compares the first `bits` bytes.
   */
  lemma EqualsAsWrittenOverreads(bits: nat, a: Bytes, b: Bytes)
    requires |a| == |b| == WORD_BYTES * BitToWords(bits)
    ensures EqualsAsWritten(bits, a, bits, b).None? <==> bits > 8
    ensures bits <= 8 ==> (EqualsAsWritten(bits, a, bits, b) == Some(true) <==> a[..bits] == b[..bits])
  {
    if bits > 8 {
      assert WORD_BYTES * BitToWords(bits) < bits by {
        assert BitToWords(bits) <= bits / W + 1;
      }
    } else {
      assert BitToWords(bits) <= 1;
    }
  }

  /** A concrete case: 9 bits occupy one 8-byte word, and 9 bytes are compared. */
  lemma NineBitsOverread(a: Bytes, b: Bytes)
    requires |a| == |b| == 8
    ensures BitToWords(9) == 1
    ensures EqualsAsWritten(9, a, 9, b) == None
  {
  }
}

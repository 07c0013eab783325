/**
 * The unsafe, manually allocated bit array `Packed` of `src/array2/packed.rs`: `len` bits
 * stored in `(len + 63) >> 6` 64-bit words that are allocated once and then
 * overwritten in place, word by word. The words are modelled as an array of
 * bits in which bit `k` of word `w` is entry `64 * w + k`; a whole-word
 * operation is a parallel update of the 64 entries of that word.
 */
module PackedArray {
  import opened BitSpec

  /** `usize::MAX` on a 64-bit target. */
  const USIZE_MAX: nat := 0xffff_ffff_ffff_ffff

  /** The number of 64-bit words needed for `n` bits, `(n + 63) >> 6`. */
  function Words64For(n: nat): (r: nat)
    ensures 64 * r >= n && 64 * r < n + 64
  {
    (n + 63) / 64
  }

  class Packed {
    const len: nat
    const words: array<bool>

    ghost predicate Valid()
      reads this
    {
      words.Length == 64 * Words64For(len)
    }

    /** The bits of the array; the rest of the last word is padding. */
    function Contents(): (s: seq<bool>)
      reads this, words
      requires Valid()
      ensures |s| == len
    {
      words[..len]
    }

    /** `new`: allocates the words; their contents are unspecified until written. */
    constructor (len: nat)
      requires len <= USIZE_MAX - 63
      ensures Valid() && this.len == len && fresh(words)
    {
      this.len := len;
      words := new bool[64 * Words64For(len)];
    }

    /** `set_all`: every byte of the allocation becomes `0xFF` or `0x00`. */
    method SetAll(val: bool)
      requires Valid()
      modifies words
      ensures words[..] == Constant(words.Length, val)
      ensures Contents() == Constant(len, val)
    {
      forall k | 0 <= k < words.Length {
        words[k] := val;
      }
    }

    /** `not_assign`: every word, padding included, is complemented. */
    method NotAssign()
      requires Valid()
      modifies words
      ensures forall k :: 0 <= k < words.Length ==> words[k] == !old(words[k])
      ensures forall i :: 0 <= i < len ==> Contents()[i] == !old(Contents())[i]
    {
      var n := Words64For(len);
      for w := 0 to n
        invariant forall k :: 0 <= k < 64 * w ==> words[k] == !old(words[k])
        invariant forall k :: 64 * w <= k < words.Length ==> words[k] == old(words[k])
      {
        forall k | 64 * w <= k < 64 * w + 64 {
          words[k] := !words[k];
        }
      }
    }

    /** `and_assign`: word-by-word conjunction with an array of the same length. */
    method AndAssign(rhs: Packed)
      requires Valid() && rhs.Valid() && len == rhs.len && rhs.words != words
      modifies words
      ensures forall k :: 0 <= k < words.Length ==> words[k] == (old(words[k]) && rhs.words[k])
      ensures forall i :: 0 <= i < len ==> Contents()[i] == (old(Contents())[i] && rhs.Contents()[i])
    {
      var n := Words64For(len);
      for w := 0 to n
        invariant forall k :: 0 <= k < 64 * w ==> words[k] == (old(words[k]) && rhs.words[k])
        invariant forall k :: 64 * w <= k < words.Length ==> words[k] == old(words[k])
      {
        forall k | 64 * w <= k < 64 * w + 64 {
          words[k] := words[k] && rhs.words[k];
        }
      }
    }

    /** `or_assign`: word-by-word disjunction with an array of the same length. */
    method OrAssign(rhs: Packed)
      requires Valid() && rhs.Valid() && len == rhs.len && rhs.words != words
      modifies words
      ensures forall k :: 0 <= k < words.Length ==> words[k] == (old(words[k]) || rhs.words[k])
      ensures forall i :: 0 <= i < len ==> Contents()[i] == (old(Contents())[i] || rhs.Contents()[i])
    {
      var n := Words64For(len);
      for w := 0 to n
        invariant forall k :: 0 <= k < 64 * w ==> words[k] == (old(words[k]) || rhs.words[k])
        invariant forall k :: 64 * w <= k < words.Length ==> words[k] == old(words[k])
      {
        forall k | 64 * w <= k < 64 * w + 64 {
          words[k] := words[k] || rhs.words[k];
        }
      }
    }

    /** `__slow_get__`: bit `index & 63` of word `index >> 6`. */
    method SlowGet(index: nat) returns (b: bool)
      requires Valid() && index < len
      ensures b == Contents()[index]
    {
      b := words[index];
    }

    /** `__slow_set__`: only bit `index` changes. */
    method SlowSet(index: nat, elem: bool)
      requires Valid() && index < len
      modifies words
      ensures words[..] == old(words[..])[index := elem]
      ensures Contents() == old(Contents())[index := elem]
    {
      words[index] := elem;
    }

    /**
     * `count_ones`: the population counts of the `len >> 6` full words, plus
     * that of the last word masked to its low `len & 63` bits when that is
     * not zero.
     */
    method CountOnes() returns (count: nat)
      requires Valid()
      ensures count == Count(Contents())
    {
      var full := len / 64;
      count := 0;
      for w := 0 to full
        invariant count == Count(words[..64 * w])
      {
        var word := words[64 * w..64 * w + 64];
        CountAppend(words[..64 * w], word);
        assert words[..64 * w] + word == words[..64 * w + 64];
        count := count + Count(word);
      }
      var bits := len % 64;
      if bits != 0 {
        var word := words[64 * full..64 * full + 64];
        CountAppend(words[..64 * full], word[..bits]);
        assert words[..64 * full] + word[..bits] == words[..len];
        count := count + Count(word[..bits]);
      }
    }

    /** `count_zeros`: the length minus `count_ones`. */
    method CountZeros() returns (count: nat)
      requires Valid()
      ensures count + Count(Contents()) == len
    {
      var ones := CountOnes();
      CountBounds(Contents());
      count := len - ones;
    }
  }

  /**
   * The `packed_set_all` test: after `set_all(true)` all bits are counted,
   * after `set_all(false)` none, and `not_assign` then makes all true again.
   */
  method SetAllThenCount(v: Packed) returns (ones_true: nat, ones_false: nat, ones_not: nat)
    requires v.Valid()
    modifies v.words
    ensures ones_true == v.len && ones_false == 0 && ones_not == v.len
  {
    v.SetAll(true);
    ones_true := v.CountOnes();
    CountConstant(v.len, true);
    v.SetAll(false);
    ones_false := v.CountOnes();
    CountConstant(v.len, false);
    v.NotAssign();
    assert v.Contents() == Constant(v.len, true);
    ones_not := v.CountOnes();
    CountConstant(v.len, true);
  }
}

/**
 * The immutable-length bit array `Bits` of `src/array.rs`: a length and
 * exactly `(len + 31) >> 5` words of 32 bits. Arrays are built whole by
 * `constant`, `generate`, `not` and `and`; only `__slow_set__` changes one
 * in place. Bits of the last word at or above `len` are padding: `not`
 * flips them and `count_ones` masks them off.
 *
 * The words are modelled as in `CoreBitVec`: bit `k` of word `w` is entry
 * `32 * w + k` of `data`.
 */
module BitsArray {
  import opened BitSpec
  import CoreBitVec

  /** `usize::MAX` on a 64-bit target. */
  const USIZE_MAX: nat := 0xffff_ffff_ffff_ffff

  class Bits {
    var data: seq<bool>
    var len: nat

    ghost predicate Valid()
      reads this
    {
      |data| == 32 * CoreBitVec.WordsFor(len)
    }

    function Contents(): (s: seq<bool>)
      reads this
      requires Valid()
      ensures |s| == len
    {
      data[..len]
    }

    /** `constant`: every word is the fill word, `!0` or `0`. */
    constructor Constant(len: nat, elem: bool)
      requires len <= USIZE_MAX - 31
      ensures Valid() && Contents() == BitSpec.Constant(len, elem)
    {
      this.len := len;
      data := BitSpec.Constant(32 * CoreBitVec.WordsFor(len), elem);
    }

    /**
     * `generate`: words are filled bit by bit from `gen(idx)`, at most 32 at
     * a time, and pushed; the last word gets only the remaining bits.
     */
    constructor Generate(len: nat, gen: nat -> bool)
      requires len <= USIZE_MAX - 31
      ensures Valid() && Contents() == seq(len, i requires 0 <= i => gen(i))
    {
      var vec: seq<bool> := [];
      var idx := 0;
      while idx < len
        invariant idx <= len && |vec| == 32 * CoreBitVec.WordsFor(idx)
        invariant idx < len ==> idx % 32 == 0
        invariant forall i :: 0 <= i < idx ==> vec[i] == gen(i)
        decreases len - idx
      {
        var count := if 32 < len - idx then 32 else len - idx;
        var word := GenerateWord(gen, idx, count);
        GenerateStep(vec, word, idx, count, gen);
        vec := vec + word;
        idx := idx + count;
      }
      this.len := len;
      data := vec;
      new;
      assert forall i :: 0 <= i < len ==> Contents()[i] == gen(i);
    }

    /** `not`: every word complemented, padding included. */
    method Not() returns (r: Bits)
      requires Valid()
      ensures fresh(r) && r.Valid() && r.len == len
      ensures forall i :: 0 <= i < len ==> r.Contents()[i] == !Contents()[i]
    {
      var vec: seq<bool> := [];
      for w := 0 to |data| / 32
        invariant |vec| == 32 * w
        invariant forall i :: 0 <= i < |vec| ==> vec[i] == !data[i]
      {
        var word := data[32 * w..32 * w + 32];
        var flipped := seq(32, k requires 0 <= k < 32 => !word[k]);
        forall i | 0 <= i < |vec| + 32
          ensures (vec + flipped)[i] == !data[i]
        {
          if i >= |vec| {
            assert flipped[i - 32 * w] == !word[i - 32 * w];
          }
        }
        vec := vec + flipped;
      }
      r := new Bits.FromWords(vec, len);
    }

    /** `and`: the word-by-word conjunction of two arrays of equal length. */
    method And(other: Bits) returns (r: Bits)
      requires Valid() && other.Valid() && len == other.len
      ensures fresh(r) && r.Valid() && r.len == len
      ensures forall i :: 0 <= i < len ==> r.Contents()[i] == (Contents()[i] && other.Contents()[i])
    {
      var vec: seq<bool> := [];
      for w := 0 to |data| / 32
        invariant |vec| == 32 * w
        invariant forall i :: 0 <= i < |vec| ==> vec[i] == (data[i] && other.data[i])
      {
        var word1 := data[32 * w..32 * w + 32];
        var word2 := other.data[32 * w..32 * w + 32];
        var both := seq(32, k requires 0 <= k < 32 => word1[k] && word2[k]);
        forall i | 0 <= i < |vec| + 32
          ensures (vec + both)[i] == (data[i] && other.data[i])
        {
          if i >= |vec| {
            assert both[i - 32 * w] == (word1[i - 32 * w] && word2[i - 32 * w]);
          }
        }
        vec := vec + both;
      }
      r := new Bits.FromWords(vec, len);
    }

    /** The struct literal `Bits { vec, len }`. */
    constructor FromWords(vec: seq<bool>, len: nat)
      requires |vec| == 32 * CoreBitVec.WordsFor(len)
      ensures Valid() && data == vec && this.len == len
    {
      data := vec;
      this.len := len;
    }

    /** `__slow_get__`. */
    method SlowGet(index: nat) returns (b: bool)
      requires Valid() && index < len
      ensures b == Contents()[index]
    {
      b := data[index];
    }

    /** `__slow_set__`: only bit `index` changes. */
    method SlowSet(index: nat, elem: bool)
      requires Valid() && index < len
      modifies this
      ensures Valid() && Contents() == old(Contents())[index := elem]
    {
      data := data[index := elem];
    }

    /**
     * `count_ones`: the loop adds the population count of each word but the
     * last; the last word is masked with `!0 >> (32 - (len & 31))`, which is
     * the full word when `len` is a multiple of 32 (the shift wraps to 0).
     */
    method CountOnes() returns (count: nat)
      requires Valid()
      ensures count == Count(Contents())
    {
      var word := BitSpec.Constant(32, false);
      count := 0;
      CountConstant(32, false);
      var n := |data| / 32;
      for w := 0 to n
        invariant |word| == 32
        invariant w == 0 ==> word == BitSpec.Constant(32, false)
        invariant w > 0 ==> word == data[32 * (w - 1)..32 * w]
        invariant count == Count(data[..(if w == 0 then 0 else 32 * (w - 1))])
      {
        CountWordStep(data, w, word);
        count := count + Count(word);
        word := data[32 * w..32 * w + 32];
      }
      var m := if len % 32 == 0 then 32 else len % 32;
      CountLastWord(data, len, word);
      count := count + Count(word[..m]);
    }

    /** `count_zeros`: the length minus `count_ones`. */
    method CountZeros() returns (count: nat)
      requires Valid()
      ensures count + Count(Contents()) == len
    {
      var ones := CountOnes();
      CountBounds(Contents());
      count := len - ones;
    }
  }

  /** The inner loop of `generate`: the first `count` bits of a zero word set from `gen(idx)` on. */
  method GenerateWord(gen: nat -> bool, idx: nat, count: nat) returns (word: seq<bool>)
    requires count <= 32
    ensures |word| == 32 && forall k :: 0 <= k < count ==> word[k] == gen(idx + k)
  {
    word := BitSpec.Constant(32, false);
    for bit := 0 to count
      invariant |word| == 32
      invariant forall k :: 0 <= k < bit ==> word[k] == gen(idx + k)
    {
      word := word[bit := gen(idx + bit)];
    }
  }

  /** A generated word extends the generated prefix, and a short word is the last. */
  lemma GenerateStep(vec: seq<bool>, word: seq<bool>, idx: nat, count: nat, gen: nat -> bool)
    requires |vec| == 32 * CoreBitVec.WordsFor(idx) && idx % 32 == 0
    requires forall i :: 0 <= i < idx ==> vec[i] == gen(i)
    requires 0 < count <= 32 && |word| == 32 && forall k :: 0 <= k < count ==> word[k] == gen(idx + k)
    ensures |vec + word| == 32 * CoreBitVec.WordsFor(idx + count)
    ensures forall i :: 0 <= i < idx + count ==> (vec + word)[i] == gen(i)
  {
    assert |vec| == idx;
    forall i | 0 <= i < idx + count
      ensures (vec + word)[i] == gen(i)
    {
      if i >= idx {
        assert word[i - idx] == gen(idx + (i - idx));
      }
    }
  }

  /** One more word of the `count_ones` loop: the count of the words before it plus its own. */
  lemma CountWordStep(data: seq<bool>, w: nat, word: seq<bool>)
    requires 32 * w <= |data|
    requires w == 0 ==> word == BitSpec.Constant(32, false)
    requires w > 0 ==> word == data[32 * (w - 1)..32 * w]
    ensures Count(data[..(if w == 0 then 0 else 32 * (w - 1))]) + Count(word) == Count(data[..32 * w])
  {
    var prev := if w == 0 then 0 else 32 * (w - 1);
    CountAppend(data[..prev], word);
    if w > 0 {
      assert data[..prev] + word == data[..32 * w];
    } else {
      CountConstant(32, false);
    }
  }

  /** The masked last word completes the count of the first `len` bits. */
  lemma CountLastWord(data: seq<bool>, len: nat, word: seq<bool>)
    requires |data| == 32 * CoreBitVec.WordsFor(len) && |word| == 32
    requires |data| / 32 == 0 ==> word == BitSpec.Constant(32, false)
    requires |data| / 32 > 0 ==> word == data[32 * (|data| / 32 - 1)..32 * (|data| / 32)]
    ensures var m := if len % 32 == 0 then 32 else len % 32;
      Count(data[..(if |data| / 32 == 0 then 0 else 32 * (|data| / 32 - 1))]) + Count(word[..m]) == Count(data[..len])
  {
    var n := |data| / 32;
    var m := if len % 32 == 0 then 32 else len % 32;
    var last := if n == 0 then 0 else 32 * (n - 1);
    CountAppend(data[..last], word[..m]);
    if n == 0 {
      CountBounds(word[..m]);
      CountConstant(32, false);
      assert word[..m] == BitSpec.Constant(m, false);
      CountConstant(m, false);
    } else {
      assert data[..last] + word[..m] == data[..len];
    }
  }

  /** The indicator of the multiples of five below `num`. */
  function MultiplesOfFive(num: nat): (r: seq<bool>)
    ensures |r| == num && forall i :: 0 <= i < num ==> r[i] == (i % 5 == 0)
  {
    seq(num, i => i % 5 == 0)
  }

  /** The `bits_generate` test: `(num + 4) / 5` of the first `num` indices are multiples of five. */
  lemma {:induction false} CountMultiplesOfFive(num: nat)
    ensures Count(MultiplesOfFive(num)) == (num + 4) / 5
  {
    if num > 0 {
      CountMultiplesOfFive(num - 1);
      assert MultiplesOfFive(num)[..num - 1] == MultiplesOfFive(num - 1);
    }
  }
}
